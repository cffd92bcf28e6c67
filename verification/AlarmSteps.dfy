/** The alarm steps of the fault-management task: which step a turn plays, and how long the turns take. */
module AlarmSteps {
  import opened Strings
  import Multiples
  import R = AlarmRegistry

  /** One step: an alarm to notify, a delay in milliseconds, or both. */
  datatype Step = Step(alarm: Option<R.Notif>, delay: Option<int>)

  function DelayOf(s: Step): int {
    if s.delay.Some? then s.delay.value else 0
  }

  function TotalDelay(steps: seq<Step>): int {
    if steps == [] then 0 else TotalDelay(steps[..|steps|-1]) + DelayOf(steps[|steps|-1])
  }

  /** What load_alarms demands: only a sum of exactly zero is refused. */
  predicate Accepted(steps: seq<Step>) {
    TotalDelay(steps) != 0
  }

  /** The step played in turn k: the steps are repeated over and over. */
  function StepAt(steps: seq<Step>, k: nat): Step
    requires steps != []
  {
    steps[k % |steps|]
  }

  /** The alarms notified in the first k turns. */
  function AlarmsPlayed(steps: seq<Step>, k: nat): seq<R.Notif>
    requires steps != []
  {
    if k == 0 then []
    else AlarmsPlayed(steps, k - 1) +
         (if StepAt(steps, k - 1).alarm.Some? then [StepAt(steps, k - 1).alarm.value] else [])
  }

  /** A negative delay does not sleep at all. */
  function SleepOf(s: Step): nat {
    if DelayOf(s) < 0 then 0 else DelayOf(s)
  }

  /** The time the first k turns must at least take. */
  function TimePlayed(steps: seq<Step>, k: nat): nat
    requires steps != []
  {
    if k == 0 then 0 else TimePlayed(steps, k - 1) + SleepOf(StepAt(steps, k - 1))
  }

  /** The value current_step has once this many steps were played. */
  function Previous(played: nat, n: nat): int
    requires n > 0
  {
    if played == 0 then -1 else (played - 1) % n
  }

  lemma PreviousStep(played: nat, n: nat)
    requires n > 0
    ensures Previous(0, n) == -1 && Previous(played + 1, n) == played % n
  {
  }

  lemma StepsRepeat(played: nat, n: nat)
    requires n > 0
    ensures played % n == (if Previous(played, n) + 1 >= n then 0 else Previous(played, n) + 1)
    ensures Previous(played, n) + 1 >= n ==> played >= n
    ensures played < n ==> Previous(played, n) == played - 1
  {
    if played > 0 {
      var q, r := (played - 1) / n, (played - 1) % n;
      assert played - 1 == n * q + r;
      if r + 1 < n {
        Multiples.DivModUnique(played, n, q, r + 1);
      } else {
        assert played == n * (q + 1);
        Multiples.DivModUnique(played, n, q + 1, 0);
      }
    }
  }

  lemma StepAtRepeats(steps: seq<Step>, k: nat)
    requires steps != []
    ensures StepAt(steps, k + |steps|) == StepAt(steps, k)
  {
    var n := |steps|;
    var q, r := k / n, k % n;
    assert k == n * q + r;
    assert k + n == n * (q + 1) + r;
    Multiples.DivModUnique(k + n, n, q + 1, r);
  }

  /** The time of one pass through all the steps. */
  function PassTime(steps: seq<Step>): nat
    requires steps != []
  {
    TimePlayed(steps, |steps|)
  }

  lemma {:induction false} AnotherPass(steps: seq<Step>, k: nat)
    requires steps != []
    ensures TimePlayed(steps, k + |steps|) == TimePlayed(steps, k) + PassTime(steps)
  {
    if k > 0 {
      AnotherPass(steps, k - 1);
      StepAtRepeats(steps, k - 1);
    }
  }

  /** Every full pass takes the same time. */
  lemma {:induction false} PassesAddUp(steps: seq<Step>, q: nat)
    requires steps != []
    ensures TimePlayed(steps, q * |steps|) == q * PassTime(steps)
  {
    if q > 0 {
      PassesAddUp(steps, q - 1);
      assert q * |steps| == (q - 1) * |steps| + |steps|;
      AnotherPass(steps, (q - 1) * |steps|);
      assert q * PassTime(steps) == (q - 1) * PassTime(steps) + PassTime(steps);
    } else {
      assert q * |steps| == 0 && q * PassTime(steps) == 0;
    }
  }

  lemma {:induction false} PassCoversDelays(steps: seq<Step>, k: nat)
    requires steps != [] && k <= |steps|
    ensures TimePlayed(steps, k) >= TotalDelay(steps[..k])
    ensures (forall s :: s in steps ==> DelayOf(s) >= 0) ==> TimePlayed(steps, k) == TotalDelay(steps[..k])
  {
    if k > 0 {
      PassCoversDelays(steps, k - 1);
      assert steps[..k][..k - 1] == steps[..k - 1];
      Multiples.DivModUnique(k - 1, |steps|, 0, k - 1);
      assert StepAt(steps, k - 1) == steps[k - 1] && steps[k - 1] in steps;
    }
  }

  /**
   A configuration taken over with non-negative delays cannot spin: q passes take exactly q times the
   positive sum of the delays.
   */
  lemma AcceptedPassesTakeTime(steps: seq<Step>, q: nat)
    requires Accepted(steps) && forall s :: s in steps ==> DelayOf(s) >= 0
    ensures TotalDelay(steps) > 0 && TimePlayed(steps, q * |steps|) == q * TotalDelay(steps) >= q
  {
    PassCoversDelays(steps, |steps|);
    assert steps[..|steps|] == steps;
    PassesAddUp(steps, q);
    Multiples.Monotone(q, 1, TotalDelay(steps));
  }

  lemma {:induction false} TimeMoves(steps: seq<Step>, k: nat, i: nat)
    requires steps != [] && i < k
    ensures TimePlayed(steps, k) >= SleepOf(StepAt(steps, i))
  {
    if i < k - 1 {
      TimeMoves(steps, k - 1, i);
    }
  }

  lemma {:induction false} NoSleepNoTime(steps: seq<Step>, k: nat)
    requires steps != [] && forall s :: s in steps ==> DelayOf(s) <= 0
    ensures TimePlayed(steps, k) == 0
  {
    if k > 0 {
      NoSleepNoTime(steps, k - 1);
      assert StepAt(steps, k - 1) in steps;
    }
  }

  /** After some number of turns, the thread has slept for at least t. */
  ghost predicate SleepsFor(steps: seq<Step>, t: nat)
    requires steps != []
  {
    exists k: nat :: TimePlayed(steps, k) >= t
  }

  /** The thread's sleeping time grows beyond every bound. */
  ghost predicate Unbounded(steps: seq<Step>)
    requires steps != []
  {
    forall t: nat :: SleepsFor(steps, t)
  }

  /** What really keeps the thread from spinning is one positive delay, not the sum that load_alarms looks at. */
  lemma UnboundedIffSomePositiveDelay(steps: seq<Step>)
    requires steps != []
    ensures Unbounded(steps) <==> exists s :: s in steps && DelayOf(s) > 0
  {
    if s :| s in steps && DelayOf(s) > 0 {
      var i :| 0 <= i < |steps| && steps[i] == s;
      Multiples.DivModUnique(i, |steps|, 0, i);
      TimeMoves(steps, |steps|, i);
      forall t: nat ensures SleepsFor(steps, t) {
        PassesAddUp(steps, t);
        Multiples.Monotone(t, 1, PassTime(steps));
        assert TimePlayed(steps, t * |steps|) >= t;
      }
    } else {
      forall k: nat ensures TimePlayed(steps, k) == 0 {
        NoSleepNoTime(steps, k);
      }
      assert !SleepsFor(steps, 1);
    }
  }

  /** A negative sum is accepted by load_alarms, and the thread then never sleeps. */
  lemma NegativeSumSpins()
    ensures var steps := [Step(None, Some(-1))]; Accepted(steps) && !Unbounded(steps)
  {
    var steps := [Step(None, Some(-1))];
    assert steps[..0] == [] && TotalDelay(steps) == TotalDelay(steps[..0]) - 1;
    UnboundedIffSomePositiveDelay(steps);
  }
}
