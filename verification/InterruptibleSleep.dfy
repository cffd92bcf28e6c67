/**
 The signal-aware sleep both schedulers rest on.

 Time is a number of milliseconds. The environment decides how long every access to the clock
 takes: access number i costs delay(i), and a pause of d milliseconds takes d + delay(i).
 An event is a one-way flag that is set from a given instant on.
 */
module InterruptibleSleep {

  datatype Instant = Never | At(ms: nat)

  datatype Env = Env(delay: nat -> nat, stop: Instant, extra: Instant)

  /** The current time and the number of clock accesses made so far. */
  datatype Moment = Moment(now: nat, step: nat)

  datatype Outcome = Elapsed | Interrupted | NegativeSleep

  predicate Passed(event: Instant, m: Moment) {
    event.At? && event.ms <= m.now
  }

  /** The flags sa_sleep looks at: the global one, and the caller's when it hands one over. */
  predicate Signalled(env: Env, watchExtra: bool, m: Moment) {
    Passed(env.stop, m) || (watchExtra && Passed(env.extra, m))
  }

  ghost predicate Bounded(env: Env, slack: nat) {
    forall i :: env.delay(i) <= slack
  }

  function Min(a: int, b: int): int {
    if a < b then a else b
  }

  function Read(env: Env, m: Moment): Moment {
    Moment(m.now + env.delay(m.step), m.step + 1)
  }

  function Pause(env: Env, m: Moment, d: nat): Moment {
    Moment(m.now + d + env.delay(m.step), m.step + 1)
  }

  /** The loop of sa_sleep from the moment m on. */
  function SleepUntil(env: Env, m: Moment, deadline: int, watchExtra: bool): (Outcome, Moment)
    decreases deadline - m.now
  {
    var checked := Read(env, m);
    if checked.now >= deadline then (Elapsed, checked)
    else if Signalled(env, watchExtra, checked) then (Interrupted, checked)
    else
      var reread := Read(env, checked);
      if reread.now > deadline then (NegativeSleep, reread)
      else SleepUntil(env, Pause(env, reread, Min(1000, deadline - reread.now)), deadline, watchExtra)
  }

  function SaSleep(env: Env, m: Moment, interval: int, watchExtra: bool): (Outcome, Moment) {
    var first := Read(env, m);
    SleepUntil(env, first, first.now + interval, watchExtra)
  }

  /** The clock the program sees. */
  class Clock {
    const env: Env
    var now: nat
    var step: nat

    constructor (env: Env)
      ensures this.env == env && Current() == Moment(0, 0)
    {
      this.env := env;
      now, step := 0, 0;
    }

    function Current(): Moment
      reads this
    {
      Moment(now, step)
    }

    method Access(d: nat)
      modifies this
      ensures Current() == Pause(env, old(Current()), d)
    {
      now := now + d + env.delay(step);
      step := step + 1;
    }

    method Sleep(interval: int, watchExtra: bool) returns (outcome: Outcome)
      modifies this
      ensures (outcome, Current()) == SaSleep(env, old(Current()), interval, watchExtra)
    {
      hide Signalled;
      Access(0);
      var deadline := now + interval;
      while true
        invariant SleepUntil(env, Current(), deadline, watchExtra) == SaSleep(env, old(Current()), interval, watchExtra)
        decreases deadline - now
      {
        Access(0);
        if now >= deadline {
          return Elapsed;
        }
        if Signalled(env, watchExtra, Current()) {
          return Interrupted;
        }
        Access(0);
        if now > deadline {
          return NegativeSleep;
        }
        Access(Min(1000, deadline - now));
      }
    }
  }

  lemma {:induction false} LoopNeverEarly(env: Env, m: Moment, deadline: int, watchExtra: bool)
    ensures var (o, e) := SleepUntil(env, m, deadline, watchExtra);
            && m.now <= e.now && m.step < e.step
            && (o.Elapsed? ==> deadline <= e.now)
            && (o.Interrupted? ==> Signalled(env, watchExtra, e))
    decreases deadline - m.now
  {
    var checked := Read(env, m);
    if checked.now < deadline && !Signalled(env, watchExtra, checked) {
      var reread := Read(env, checked);
      if reread.now <= deadline {
        LoopNeverEarly(env, Pause(env, reread, Min(1000, deadline - reread.now)), deadline, watchExtra);
      }
    }
  }

  /** Whatever the clock accesses cost, a sleep only ends early when a watched flag is set. */
  lemma NeverEarly(env: Env, m: Moment, interval: int, watchExtra: bool)
    ensures var (o, e) := SaSleep(env, m, interval, watchExtra);
            && m.now <= e.now && m.step < e.step
            && (o.Elapsed? ==> m.now + interval <= e.now)
            && (o.Interrupted? ==>
                  || (env.stop.At? && env.stop.ms <= e.now)
                  || (watchExtra && env.extra.At? && env.extra.ms <= e.now))
  {
    var first := Read(env, m);
    LoopNeverEarly(env, first, first.now + interval, watchExtra);
  }

  lemma {:induction false} LoopTiming(env: Env, slack: nat, m: Moment, deadline: int, watchExtra: bool)
    requires Bounded(env, slack)
    ensures var (o, e) := SleepUntil(env, m, deadline, watchExtra);
            && (o.Elapsed? ==> e.now <= (if deadline < m.now then m.now else deadline) + 2 * slack)
            && (o.Interrupted? ==> e.now < deadline)
            && (o.NegativeSleep? ==> deadline < e.now < deadline + slack)
    decreases deadline - m.now
  {
    var checked := Read(env, m);
    if checked.now < deadline && !Signalled(env, watchExtra, checked) {
      var reread := Read(env, checked);
      if reread.now <= deadline {
        LoopTiming(env, slack, Pause(env, reread, Min(1000, deadline - reread.now)), deadline, watchExtra);
      }
    }
  }

  /**
   A sleep overshoots by at most three clock accesses; the ValueError of a negative pause needs the
   clock to pass the deadline between two reads.
   */
  lemma Timing(env: Env, slack: nat, m: Moment, interval: int, watchExtra: bool)
    requires Bounded(env, slack)
    ensures var (o, e) := SaSleep(env, m, interval, watchExtra);
            && (o.Elapsed? ==> m.now + interval <= e.now <= m.now + (if interval < 0 then 0 else interval) + 3 * slack)
            && (o.Interrupted? ==> m.now <= e.now < m.now + interval + slack)
            && (o.NegativeSleep? ==> m.now + interval < e.now < m.now + interval + 2 * slack)
  {
    var first := Read(env, m);
    LoopTiming(env, slack, first, first.now + interval, watchExtra);
    NeverEarly(env, m, interval, watchExtra);
  }

  /** Once a watched flag is up, the loop is over within one pause and the accesses around it. */
  lemma {:induction false} LoopLatency(env: Env, slack: nat, m: Moment, deadline: int, watchExtra: bool, t: nat)
    requires Bounded(env, slack)
    requires forall later: Moment :: t <= later.now ==> Signalled(env, watchExtra, later)
    ensures SleepUntil(env, m, deadline, watchExtra).1.now <= (if t < m.now then m.now else t + 1000) + 3 * slack
    decreases deadline - m.now
  {
    var checked := Read(env, m);
    if checked.now < deadline && !Signalled(env, watchExtra, checked) {
      var reread := Read(env, checked);
      if reread.now <= deadline {
        LoopLatency(env, slack, Pause(env, reread, Min(1000, deadline - reread.now)), deadline, watchExtra, t);
      }
    }
  }

  /** A flag raised at time t ends the sleep at most one second and four clock accesses after it. */
  lemma Latency(env: Env, slack: nat, m: Moment, interval: int, watchExtra: bool, t: nat)
    requires Bounded(env, slack)
    requires env.stop == At(t) || (watchExtra && env.extra == At(t))
    ensures SaSleep(env, m, interval, watchExtra).1.now <= (if t < m.now then m.now else t + 1000) + 4 * slack
  {
    var first := Read(env, m);
    LoopLatency(env, slack, first, first.now + interval, watchExtra, t);
  }

  ghost predicate Raises(env: Env, m: Moment, interval: int, slack: nat) {
    Bounded(env, slack) && SaSleep(env, m, interval, false).0.NegativeSleep?
  }

  /** What the accesses of n full pauses and of the two reads after them can take. */
  function Budget(n: nat, slack: nat): nat {
    (3 * n + 2) * slack
  }

  lemma BudgetGrows(n: nat, slack: nat)
    ensures Budget(0, slack) == 2 * slack && Budget(n + 1, slack) == Budget(n, slack) + 3 * slack
  {
    assert (3 * (n + 1) + 2) * slack == (3 * n + 2) * slack + 3 * slack;
  }

  /** The budget can use up what n seconds leave of the interval. */
  ghost predicate CanCross(interval: int, slack: nat, n: nat) {
    1 <= interval - 1000 * n < Budget(n, slack)
  }

  lemma {:induction false} RaisingCrosses(env: Env, slack: nat, m: Moment, deadline: int) returns (n: nat)
    requires Bounded(env, slack) && SleepUntil(env, m, deadline, false).0.NegativeSleep?
    ensures slack >= 2 && CanCross(deadline - m.now, slack, n)
    decreases deadline - m.now
  {
    hide Budget;
    var checked := Read(env, m);
    var reread := Read(env, checked);
    if reread.now > deadline {
      n := 0;
      BudgetGrows(0, slack);
    } else {
      var woken := Pause(env, reread, Min(1000, deadline - reread.now));
      var k := RaisingCrosses(env, slack, woken, deadline);
      n := k + 1;
      BudgetGrows(k, slack);
    }
  }

  /** Delays of at most slack that add up to total as early as they can, and one full delay at the end. */
  function UsedUp(total: nat, slack: nat, k: nat): nat {
    if total < k * slack then total else k * slack
  }

  function EarlyDelay(total: nat, slack: nat, last: nat, i: nat): nat {
    if i == last then slack
    else if i == 0 || i > last || UsedUp(total, slack, i) < UsedUp(total, slack, i - 1) then 0
    else UsedUp(total, slack, i) - UsedUp(total, slack, i - 1)
  }

  lemma DelaysAreBounded(total: nat, slack: nat, last: nat, i: nat)
    ensures EarlyDelay(total, slack, last, i) <= slack
    ensures 0 < i < last ==> UsedUp(total, slack, i) == UsedUp(total, slack, i - 1) + EarlyDelay(total, slack, last, i)
  {
    if i > 0 {
      assert i * slack == (i - 1) * slack + slack;
    }
  }

  lemma UsedUpInTime(total: nat, slack: nat, k: nat, last: nat)
    ensures UsedUp(total, slack, k) <= total && UsedUp(total, slack, 0) == 0
            && EarlyDelay(total, slack, last, last) == slack
    ensures total <= k * slack ==> UsedUp(total, slack, k) == total
  {
  }

  lemma FullPause(env: Env, m: Moment, deadline: int)
    requires env.stop.Never? && Read(env, Read(env, m)).now <= deadline - 1000
    ensures SleepUntil(env, m, deadline, false)
            == SleepUntil(env, Pause(env, Read(env, Read(env, m)), 1000), deadline, false)
  {
  }

  lemma CrossedBetweenReads(env: Env, m: Moment, deadline: int)
    requires env.stop.Never? && Read(env, m).now < deadline < Read(env, Read(env, m)).now
    ensures SleepUntil(env, m, deadline, false).0.NegativeSleep?
  {
  }

  /** With those delays, j pauses in, the sleep goes on to raise after n pauses. */
  lemma {:induction false} EarlyDelaysRaise(env: Env, interval: nat, slack: nat, n: nat, total: nat, j: nat)
    requires env.stop.Never? && j <= n && total < interval - 1000 * n < total + slack && total <= (3 * n + 1) * slack
    requires forall i :: env.delay(i) == EarlyDelay(total, slack, 3 * n + 2, i)
    ensures SleepUntil(env, Moment(1000 * j + UsedUp(total, slack, 3 * j), 3 * j + 1), interval, false).0.NegativeSleep?
    decreases n - j
  {
    hide UsedUp, EarlyDelay, SleepUntil;
    var m := Moment(1000 * j + UsedUp(total, slack, 3 * j), 3 * j + 1);
    UsedUpInTime(total, slack, 3 * j + 1, 3 * n + 2);
    UsedUpInTime(total, slack, 3 * j + 2, 3 * n + 2);
    DelaysAreBounded(total, slack, 3 * n + 2, 3 * j + 1);
    DelaysAreBounded(total, slack, 3 * n + 2, 3 * j + 2);
    DelaysAreBounded(total, slack, 3 * n + 2, 3 * j + 3);
    var checked := Read(env, m);
    var reread := Read(env, checked);
    assert checked.now == 1000 * j + UsedUp(total, slack, 3 * j + 1) < interval;
    if j < n {
      assert reread.now == 1000 * j + UsedUp(total, slack, 3 * j + 2) <= interval - 1000;
      assert Pause(env, reread, 1000) == Moment(1000 * (j + 1) + UsedUp(total, slack, 3 * (j + 1)), 3 * (j + 1) + 1);
      FullPause(env, m, interval);
      EarlyDelaysRaise(env, interval, slack, n, total, j + 1);
    } else {
      assert reread.now == 1000 * n + total + slack;
      CrossedBetweenReads(env, m, interval);
    }
  }

  lemma TotalFits(left: int, slack: nat, n: nat) returns (total: nat)
    requires slack >= 2 && 1 <= left < Budget(n, slack)
    ensures total < left < total + slack && total <= (3 * n + 1) * slack
  {
    var most := (3 * n + 1) * slack;
    assert Budget(n, slack) == most + slack;
    total := if left - 1 < most then left - 1 else most;
  }

  lemma CrossingRaises(interval: int, slack: nat, n: nat) returns (env: Env)
    requires slack >= 2 && CanCross(interval, slack, n)
    ensures Raises(env, Moment(0, 0), interval, slack)
  {
    hide Budget, UsedUp, EarlyDelay, SleepUntil;
    var total := TotalFits(interval - 1000 * n, slack, n);
    var last := 3 * n + 2;
    env := Env((i: nat) => EarlyDelay(total, slack, last, i), Never, Never);
    forall i
      ensures env.delay(i) <= slack
    {
      DelaysAreBounded(total, slack, last, i);
    }
    NoDelayYet(total, slack, last);
    EarlyDelaysRaise(env, interval, slack, n, total, 0);
    assert Read(env, Moment(0, 0)) == Moment(0, 1);
  }

  lemma NoDelayYet(total: nat, slack: nat, last: nat)
    requires last > 0
    ensures UsedUp(total, slack, 0) == 0 && EarlyDelay(total, slack, last, 0) == 0
  {
  }

  /**
   The second clock read in time.sleep(min(1, end_time - time.time())) can make the argument negative,
   which raises ValueError. This can happen exactly when an access can take two milliseconds and, after
   some number of full pauses, the accesses made until then can outlast the rest of the interval.
   */
  lemma RaisesIffAccessesOutlastTheSleep(interval: int, slack: nat)
    ensures (exists env, m :: Raises(env, m, interval, slack)) <==>
              slack >= 2 && exists n :: CanCross(interval, slack, n)
  {
    if env, m :| Raises(env, m, interval, slack) {
      var first := Read(env, m);
      var n := RaisingCrosses(env, slack, first, first.now + interval);
      assert CanCross(interval, slack, n);
    }
    if slack >= 2 && exists n :: CanCross(interval, slack, n) {
      var n :| CanCross(interval, slack, n);
      var env := CrossingRaises(interval, slack, n);
    }
  }

  lemma FitsWithinTwoReads(env: Env, slack: nat, m: Moment, interval: nat, watchExtra: bool)
    requires interval <= 1000 && 2 * slack <= interval && Bounded(env, slack)
    ensures !SaSleep(env, m, interval, watchExtra).0.NegativeSleep?
  {
    var first := Read(env, m);
    var deadline := first.now + interval;
    var reread := Read(env, Read(env, first));
    assert reread.now <= deadline;
    var woken := Pause(env, reread, Min(1000, deadline - reread.now));
    assert SleepUntil(env, woken, deadline, watchExtra).0.Elapsed?;
  }

  lemma QuickSleepNeverRaises(env: Env, m: Moment, interval: int, watchExtra: bool)
    requires Bounded(env, 1)
    ensures !SaSleep(env, m, interval, watchExtra).0.NegativeSleep?
  {
    var first := Read(env, m);
    LoopTiming(env, 1, first, first.now + interval, watchExtra);
  }
}
