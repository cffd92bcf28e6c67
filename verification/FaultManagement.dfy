/**
 The fault-management object: alarm objects updated in place in a dictionary, and the thread that plays
 the alarm steps. AlarmRegistry says what each operation does to the list as a value.
 */
module FaultManagement {
  import opened Strings
  import opened InterruptibleSleep
  import opened AlarmSteps
  import R = AlarmRegistry

  class Alarm {
    const resource: string
    const typeId: string
    const qualifier: string
    var timesRaised: nat
    var timesCleared: nat
    var isCleared: Option<bool>
    var severity: R.SeverityAttr
    var text: Option<string>
    var created: Option<int>
    var lastRaised: Option<int>
    var lastChanged: Option<int>

    constructor (resource: string, typeId: string, qualifier: string)
      ensures Value() == R.NewAlarm(resource, typeId, qualifier)
    {
      this.resource, this.typeId, this.qualifier := resource, typeId, qualifier;
      timesRaised, timesCleared := 0, 0;
      isCleared, severity, text, created, lastRaised, lastChanged := None, R.Missing, None, None, None, None;
    }

    function Value(): R.Alarm
      reads this
    {
      R.Alarm(resource, typeId, qualifier, timesRaised, timesCleared, isCleared, severity, text, created,
          lastRaised, lastChanged)
    }

    method Count()
      requires isCleared.Some?
      modifies `timesRaised, `timesCleared
      ensures Value() == R.Counted(old(Value()))
    {
      if isCleared.value {
        timesCleared := timesCleared + 1;
      } else {
        timesRaised := timesRaised + 1;
      }
    }

    method CountersClear()
      modifies `timesRaised, `timesCleared
      ensures Value() == R.Zeroed(old(Value()))
    {
      timesRaised := 0;
      timesCleared := 0;
    }

    /** The assignments of from_ietf_alarm_notif, in the order the program makes them. */
    method Update(n: R.Notif, time: int) returns (o: R.Outcome)
      modifies this
      ensures (o, Value()) == R.Updated(old(Value()), n, time)
    {
      if n.severity.Some? {
        isCleared := Some(false);
        var parsed := R.ParseSeverity(n.severity.value);
        if parsed.None? {
          return R.ValueError;
        }
        if parsed.value == R.Cleared {
          if severity.Missing? {
            return R.AttributeError;
          }
          if severity.Null? {
            severity := R.Known(R.Indeterminate);
          }
          isCleared := Some(true);
        } else {
          severity := R.Known(parsed.value);
          lastRaised := Some(time);
        }
      }
      if n.isCleared.Some? {
        isCleared := n.isCleared;
      }
      if n.text.Some? {
        text := n.text;
      }
      lastChanged := Some(time);
      if isCleared.None? {
        return R.AttributeError;
      }
      Count();
      return R.Applied;
    }

    /** The assignments of from_ietf_alarm. */
    method Load(e: R.Entry, now: int) returns (o: R.Outcome)
      modifies this
      ensures (o, Value()) == R.Loaded(old(Value()), e, now)
    {
      isCleared := Some(e.isCleared);
      var parsed := R.ParseSeverity(e.severity);
      if parsed.None? {
        return R.ValueError;
      }
      severity := R.Known(parsed.value);
      text := Some(e.text);
      var times := R.EntryTimes(e, now);
      created := Some(times.created);
      lastRaised := Some(times.lastRaised);
      lastChanged := Some(times.lastChanged);
      Count();
      o := R.Applied;
    }

    /** alarm_raise, up to the report to the list. */
    method Raise(newSeverity: Option<R.Severity>, now: int) returns (o: R.Outcome, changed: bool)
      modifies this
      ensures (o, Value()) == R.Raised(old(Value()), newSeverity, now)
      ensures changed == (old(Value()) != Value()) && (changed ==> o.Applied? && lastChanged == Some(now))
    {
      if isCleared.None? {
        return R.AttributeError, false;
      }
      if isCleared.value {
        if newSeverity.Some? {
          if newSeverity.value == R.Cleared {
            return R.ValueError, false;
          }
          severity := R.Known(newSeverity.value);
        }
        isCleared := Some(false);
        lastChanged := Some(now);
        lastRaised := lastChanged;
        timesRaised := timesRaised + 1;
        return R.Applied, true;
      }
      return R.Applied, false;
    }

    /** alarm_clear, up to the report to the list. */
    method Clear(now: int) returns (o: R.Outcome, changed: bool)
      modifies this
      ensures (o, Value()) == R.Lowered(old(Value()), now)
      ensures changed == (old(Value()) != Value()) && (changed ==> o.Applied? && lastChanged == Some(now))
    {
      if isCleared.None? {
        return R.AttributeError, false;
      }
      if !isCleared.value {
        isCleared := Some(true);
        lastChanged := Some(now);
        timesCleared := timesCleared + 1;
        return R.Applied, true;
      }
      return R.Applied, false;
    }
  }

  class Registry {
    var alarms: map<string, Alarm>
    var lastChanged: int

    constructor (now: int)
      ensures Valid() && Abs() == R.Registry(map[], now)
    {
      alarms, lastChanged := map[], now;
    }

    /** No object is listed under two keys. */
    ghost predicate Valid()
      reads this
    {
      forall i, j :: i in alarms && j in alarms && i != j ==> alarms[i] != alarms[j]
    }

    ghost function Abs(): R.Registry
      reads this, alarms.Values
    {
      R.Registry(map id | id in alarms :: alarms[id].Value(), lastChanged)
    }

    /** The list differs from an earlier one in a single alarm. */
    ghost predicate Differs(before: R.Registry, id: string)
      reads this, alarms.Values
    {
      && id in alarms && lastChanged == before.lastChanged
      && alarms.Keys == before.alarms.Keys + {id}
      && forall other :: other in alarms && other != id ==> alarms[other].Value() == before.alarms[other]
    }

    lemma DiffersInOne(before: R.Registry, id: string)
      requires Differs(before, id)
      ensures Abs().alarms == before.alarms[id := alarms[id].Value()]
    {
    }

    /** on_alarm_change, called for an alarm whose update went through. */
    method OnAlarmChange(id: string, o: R.Outcome, ghost before: R.Registry)
      requires Differs(before, id)
      requires o.Applied? ==> alarms[id].lastChanged.Some?
      modifies `lastChanged
      ensures Abs() == R.Stored(before, id, o, alarms[id].Value())
    {
      DiffersInOne(before, id);
      ghost var listed := Abs().alarms;
      if o == R.Applied && alarms[id].lastChanged.value > lastChanged {
        lastChanged := alarms[id].lastChanged.value;
      }
      assert Abs().alarms == listed;
    }

    /** get_alarm, and add_alarm when there is none. */
    method FindOrAdd(resource: string, typeId: string, qualifier: string) returns (alarm: Alarm, added: bool)
      requires Valid()
      modifies `alarms
      ensures Valid()
      ensures var id := R.CombinedId(resource, typeId, qualifier);
              && added == (id !in old(alarms))
              && (if added then fresh(alarm) && alarms == old(alarms)[id := alarm]
                   && alarm.Value() == R.NewAlarm(resource, typeId, qualifier)
                  else alarms == old(alarms) && alarm == alarms[id])
    {
      var id := R.CombinedId(resource, typeId, qualifier);
      if id in alarms {
        return alarms[id], false;
      }
      alarm := new Alarm(resource, typeId, qualifier);
      alarms := alarms[id := alarm];
      added := true;
    }

    /** from_ietf_alarm_notif: finds or adds the alarm, then updates it in place. */
    method FromNotif(n: R.Notif, now: int) returns (o: R.Outcome, alarm: Alarm)
      requires Valid()
      modifies this, alarms.Values
      ensures Valid() && fresh(alarms.Values - old(alarms.Values))
      ensures R.NotifId(n) in alarms && alarms[R.NotifId(n)] == alarm
      ensures (o, Abs()) == R.ApplyNotif(old(Abs()), n, now)
    {
      var added;
      alarm, added := FindOrAdd(n.resource, n.typeId, n.qualifier);
      if added {
        alarm.created := Some(R.NotifTime(n, now));
        alarm.lastRaised := Some(R.NotifTime(n, now));
      }
      assert alarm.Value() == R.Target(old(Abs()), n, R.NotifTime(n, now));
      o := alarm.Update(n, R.NotifTime(n, now));
      OnAlarmChange(R.NotifId(n), o, old(Abs()));
    }

    /** from_ietf_alarm: the same for an entry of the datastore's alarm list. */
    method FromEntry(e: R.Entry, now: int) returns (o: R.Outcome, alarm: Alarm)
      requires Valid()
      modifies this, alarms.Values
      ensures Valid() && fresh(alarms.Values - old(alarms.Values))
      ensures (o, Abs()) == R.ApplyEntry(old(Abs()), e, now)
    {
      var added;
      alarm, added := FindOrAdd(e.resource, e.typeId, e.qualifier);
      o := alarm.Load(e, now);
      OnAlarmChange(R.EntryId(e), o, old(Abs()));
    }

    /** load_active_alarms: takes over the datastore's last-changed, then its entries one by one. */
    method LoadActive(listChanged: int, entries: seq<R.Entry>, now: nat -> int)
      returns (o: R.Outcome, ghost loaded: nat)
      requires Valid()
      modifies this, alarms.Values
      ensures Valid() && fresh(alarms.Values - old(alarms.Values)) && loaded <= |entries|
      ensures Abs() == R.Run(old(Abs()).(lastChanged := listChanged), R.Loads(entries, now, loaded))
      ensures o.Applied? <==> R.AllApplied(old(Abs()).(lastChanged := listChanged), R.Loads(entries, now, loaded))
      ensures if o.Applied? then loaded == |entries|
              else loaded > 0 && R.AllApplied(old(Abs()).(lastChanged := listChanged),
                  R.Loads(entries, now, loaded - 1))
    {
      hide R.Run, R.AllApplied, R.ApplyEntry;
      ghost var start := Abs().(lastChanged := listChanged);
      NothingLoadedYet(start);
      lastChanged := listChanged;
      loaded := 0;
      assert Abs() == start;
      for i := 0 to |entries|
        invariant loaded == i && Valid() && fresh(alarms.Values - old(alarms.Values))
        invariant Abs() == R.Run(start, R.Loads(entries, now, i)) && R.AllApplied(start, R.Loads(entries, now, i))
      {
        R.RunOneMore(start, R.Loads(entries, now, i), R.Load(entries[i], now(i)));
        var alarm;
        o, alarm := FromEntry(entries[i], now(i));
        loaded := i + 1;
        if !o.Applied? {
          return;
        }
      }
      o := R.Applied;
    }

    lemma NothingLoadedYet(start: R.Registry)
      ensures R.Run(start, []) == start && R.AllApplied(start, [])
    {
    }

    method AlarmRaise(id: string, severity: Option<R.Severity>, now: int) returns (o: R.Outcome)
      requires Valid() && id in alarms
      modifies `lastChanged, alarms[id]
      ensures (o, Abs()) == R.ApplyRaise(old(Abs()), id, severity, now)
    {
      var changed;
      o, changed := alarms[id].Raise(severity, now);
      if changed {
        OnAlarmChange(id, o, old(Abs()));
      } else {
        assert Abs().alarms == old(Abs()).alarms;
      }
    }

    method AlarmClear(id: string, now: int) returns (o: R.Outcome)
      requires Valid() && id in alarms
      modifies `lastChanged, alarms[id]
      ensures (o, Abs()) == R.ApplyClear(old(Abs()), id, now)
    {
      var changed;
      o, changed := alarms[id].Clear(now);
      if changed {
        OnAlarmChange(id, o, old(Abs()));
      } else {
        assert Abs().alarms == old(Abs()).alarms;
      }
    }

    /** clear_alarm_counters: resets the counters of one listed alarm after the other. */
    method ClearCounters()
      requires Valid()
      modifies alarms.Values
      ensures Valid() && alarms == old(alarms)
      ensures Abs() == R.ApplyReset(old(Abs()))
    {
      var rest := alarms.Keys;
      while rest != {}
        invariant rest <= alarms.Keys && alarms == old(alarms)
        invariant forall id :: id in alarms ==>
                    alarms[id].Value() == if id in rest then old(alarms[id].Value())
                      else R.Zeroed(old(alarms[id].Value()))
        decreases |rest|
      {
        var id :| id in rest;
        alarms[id].CountersClear();
        rest := rest - {id};
      }
    }
  }

  /** The notifications among a run's events. */
  function NotifsOf(events: seq<R.Event>): seq<R.Notif>
    requires forall e :: e in events ==> e.Notify?
  {
    if events == [] then [] else
    assert events[|events|-1] in events && forall e :: e in events[..|events|-1] ==> e in events;
    NotifsOf(events[..|events|-1]) + [events[|events|-1].n]
  }

  /** The alarm half of a step raises: the list cannot take the notification, or nothing can be sent of it. */
  predicate AlarmFails(list: R.Registry, step: Step, now: nat, sendRaises: bool) {
    step.alarm.Some? && (sendRaises || R.CannotSend(list, step.alarm.value, 1000 * now))
  }

  predicate SleepFails(env: Env, step: Step, m: Moment) {
    step.delay.Some? && SaSleep(env, m, step.delay.value, true).0.NegativeSleep?
  }

  /** A run of the steps: the list it started from, what had been sent before, and the notifications since. */
  datatype Played = Played(start: R.Registry, sentBefore: seq<R.Notif>, events: seq<R.Event>) {
    /** After k steps, all of which went through: the list, and what has been sent. */
    ghost predicate Reaches(list: R.Registry, sent: seq<R.Notif>, steps: seq<Step>, k: nat)
      requires steps != []
    {
      && Notifications(events)
      && R.AllApplied(start, events) && R.Run(start, events) == list
      && sent == sentBefore + R.SentOf(start, events) && |R.SentOf(start, events)| == |events|
      && NotifsOf(events) == AlarmsPlayed(steps, k)
    }

    /**
     An exception ended the run in the step after the first k, whose alarm was listed. Either that alarm could not
     be sent, and nothing was, or it was sent and the sleep raised.
     */
    ghost predicate Breaks(list: R.Registry, sent: seq<R.Notif>, steps: seq<Step>, k: nat, env: Env, sendRaises: bool)
      requires steps != []
    {
      && Notifications(events)
      && R.Run(start, events) == list
      && NotifsOf(events) == AlarmsPlayed(steps, k + 1)
      && exists earlier: seq<R.Event>, m: Moment :: Failed(earlier, m, sent, steps, k, env, sendRaises)
    }

    ghost predicate Failed(earlier: seq<R.Event>, m: Moment, sent: seq<R.Notif>, steps: seq<Step>, k: nat, env: Env,
                           sendRaises: bool)
      requires steps != []
    {
      && Notifications(earlier) && R.AllApplied(start, earlier) && NotifsOf(earlier) == AlarmsPlayed(steps, k)
      && if AlarmFails(R.Run(start, earlier), StepAt(steps, k), m.now, sendRaises)
         then sent == sentBefore + R.SentOf(start, earlier)
         else SleepFails(env, StepAt(steps, k), m) && sent == sentBefore + R.SentOf(start, events)
    }
  }

  datatype Exit = Halted | Finished | Crashed | LoopMissing | StillRunning

  class FaultManagement {
    const registry: Registry
    var steps: seq<Step>
    var loop: Option<bool>
    var stopped: bool
    /** The notifications handed to the NETCONF server so far. */
    ghost var sent: seq<R.Notif>

    constructor (now: int)
      ensures fresh(registry) && registry.Valid() && registry.Abs() == R.Registry(map[], now) && stopped && sent == []
    {
      registry := new Registry(now);
      steps, loop, stopped, sent := [], None, true, [];
    }

    /** load_alarms: the configuration is only taken over when its delays do not add up to zero. */
    method LoadAlarms(newSteps: seq<Step>, newLoop: Option<bool>) returns (ok: bool)
      modifies `steps, `loop
      ensures ok == Accepted(newSteps)
      ensures if ok then steps == newSteps && loop == newLoop && steps != [] else unchanged(this)
    {
      var totalDelay := 0;
      for i := 0 to |newSteps|
        invariant totalDelay == TotalDelay(newSteps[..i])
      {
        assert newSteps[..i + 1][..i] == newSteps[..i];
        if newSteps[i].delay.Some? {
          totalDelay := totalDelay + newSteps[i].delay.value;
        }
      }
      assert newSteps[..|newSteps|] == newSteps;
      if totalDelay == 0 {
        return false;
      }
      steps, loop := newSteps, newLoop;
      return true;
    }

    /** The loop's own test, but for stopped, which nobody else sets. */
    predicate StopSeen(clock: Clock)
      reads clock
    {
      Signalled(clock.env, true, clock.Current())
    }

    /**
     As long as no flag is seen, the time since the loop began covers the delays of the first k steps, and it never
     exceeds them by more than three clock accesses a step.
     */
    ghost predicate Covered(from: int, k: nat, clock: Clock, slack: nat)
      requires steps != []
      reads `steps, clock
    {
      && (!StopSeen(clock) ==> from + TimePlayed(steps, k) <= clock.now)
      && (Bounded(clock.env, slack) ==> clock.now <= from + TimePlayed(steps, k) + k * (3 * slack))
    }

    /** The list is what the run so far makes of it, and its time is covered. */
    ghost predicate OnTrack(run: Played, from: int, k: nat, clock: Clock, slack: nat)
      requires steps != []
      reads `steps, `sent, clock, registry, registry.alarms.Values
    {
      registry.Valid() && run.Reaches(registry.Abs(), sent, steps, k) && Covered(from, k, clock, slack)
    }

    /** The step after current_step, or none when the steps are used up and not repeated. */
    method NextStep(currentStep: int, ghost k: nat) returns (next: Option<nat>)
      requires steps != [] && currentStep == Previous(k, |steps|)
      requires loop != Some(true) ==> k <= |steps|
      ensures next == if loop != Some(true) && k == |steps| then None else Some(k % |steps|)
    {
      StepsRepeat(k, |steps|);
      if currentStep + 1 >= |steps| {
        next := if loop == Some(true) then Some(0) else None;
      } else {
        next := Some(currentStep + 1);
      }
    }

    /** The alarm half of a step: update the list, then send the notification. */
    method Notify(n: R.Notif, now: int, sendRaises: bool) returns (raised: bool)
      requires registry.Valid()
      modifies `sent, registry, registry.alarms.Values
      ensures registry.Valid() && fresh(registry.alarms.Values - old(registry.alarms.Values))
      ensures registry.Abs() == R.ApplyNotif(old(registry.Abs()), n, now).1
      ensures raised <==> sendRaises || R.CannotSend(old(registry.Abs()), n, now)
      ensures sent == old(sent) + if raised then [] else R.Shown(registry.Abs(), R.Notify(n, now))
      ensures !raised ==> |sent| == |old(sent)| + 1
    {
      var o, alarm := registry.FromNotif(n, now);
      if o != R.Applied || R.ToNotif(alarm.Value()).None? || sendRaises {
        return true;
      }
      sent := sent + [R.ToNotif(alarm.Value()).value];
      raised := false;
    }

    /** One step: the alarm first, then the delay. */
    method PlayStep(step: Step, clock: Clock, sendRaises: bool) returns (raised: bool, ghost event: Option<R.Event>)
      requires registry.Valid()
      modifies `sent, clock, registry, registry.alarms.Values
      ensures registry.Valid() && fresh(registry.alarms.Values - old(registry.alarms.Values))
      ensures raised <==>
                || AlarmFails(old(registry.Abs()), step, old(clock.now), sendRaises)
                || SleepFails(clock.env, step, old(clock.Current()))
      ensures clock.Current()
              == (if step.delay.None? || AlarmFails(old(registry.Abs()), step, old(clock.now), sendRaises)
                                  then old(clock.Current())
                                  else SaSleep(clock.env, old(clock.Current()), step.delay.value, true).1)
      ensures if event.Some? && !AlarmFails(old(registry.Abs()), step, old(clock.now), sendRaises)
              then sent == old(sent) + R.Shown(registry.Abs(), event.value) && |sent| == |old(sent)| + 1
              else sent == old(sent)
      ensures event == (if step.alarm.Some? then Some(R.Notify(step.alarm.value, 1000 * old(clock.now))) else None)
      ensures event.Some? ==> registry.Abs() == R.Apply(old(registry.Abs()), event.value).1
      ensures event.None? ==> registry.Abs() == old(registry.Abs())
      ensures old(StopSeen(clock)) ==> StopSeen(clock)
      ensures !raised && !StopSeen(clock) ==> old(clock.now) + SleepOf(step) <= clock.now
    {
      hide SaSleep, R.CannotSend, R.ApplyNotif, R.Shown;
      event := None;
      if step.alarm.Some? {
        event := Some(R.Notify(step.alarm.value, 1000 * clock.now));
        raised := Notify(step.alarm.value, 1000 * clock.now, sendRaises);
        if raised {
          return;
        }
      }
      if step.delay.Some? {
        ghost var before := clock.Current();
        var outcome := clock.Sleep(step.delay.value, true);
        NeverEarly(clock.env, before, step.delay.value, true);
        raised := outcome == NegativeSleep;
      } else {
        raised := false;
      }
    }

    lemma NoFlagNoStop(clock: Clock)
      ensures NoFlag(clock.env) ==> !StopSeen(clock)
    {
    }

    lemma BeginsOnTrack(clock: Clock, slack: nat)
      requires registry.Valid() && steps != []
      ensures OnTrack(Played(registry.Abs(), sent, []), clock.now, 0, clock, slack)
    {
    }

    /** One turn of the loop: a step is played, and the run it belongs to grows by it. */
    method Turn(k: nat, clock: Clock, sendRaises: bool, ghost before: Played, ghost from: int, ghost slack: nat)
      returns (raised: bool, ghost after: Played)
      requires steps != [] && OnTrack(before, from, k, clock, slack)
      modifies `sent, clock, registry, registry.alarms.Values
      ensures fresh(registry.alarms.Values - old(registry.alarms.Values))
      ensures if raised then registry.Valid() && after.Breaks(registry.Abs(), sent, steps, k, clock.env, sendRaises)
              else OnTrack(after, from, k + 1, clock, slack)
      ensures after.start == before.start && after.sentBefore == before.sentBefore
    {
      hide R.CannotSend, R.ApplyNotif, R.Shown, R.Run, R.SentOf, R.AllApplied, SaSleep;
      ghost var list, sentSoFar, m := registry.Abs(), sent, clock.Current();
      ghost var event;
      raised, event := PlayStep(StepAt(steps, k), clock, sendRaises);
      StepExtendsRun(before, list, sentSoFar, registry.Abs(), sent, steps, k, event, m, clock.env, sendRaises);
      StepTakes(steps, k, m, clock.env, slack);
      after := OneStepMore(before, event);
    }

    /**
     fault_management_task, observed for at most window turns. The list is at all times the outcome of
     the notifications of the steps played so far, and each of them has been sent on right after its update;
     without looping each step is played once; and while no flag is seen the time that has passed covers all
     delays. Only an exception leaves stopped unset, and every exception has its cause: without one, without a
     flag and without looping the steps are played to the end.
     */
    method Task(clock: Clock, sendRaises: nat -> bool, window: nat, ghost slack: nat)
      returns (exit: Exit, played: nat, ghost run: Played)
      requires registry.Valid() && steps != [] && !stopped
      modifies `stopped, `sent, clock, registry, registry.alarms.Values
      ensures stopped == (exit.Halted? || exit.Finished?)
      ensures run.start == old(registry.Abs()) && run.sentBefore == old(sent)
      ensures if exit.Crashed? then
                registry.Valid() && run.Breaks(registry.Abs(), sent, steps, played, clock.env, sendRaises(played))
              else OnTrack(run, old(clock.now), played, clock, slack)
      ensures loop != Some(true) ==> played <= |steps|
      ensures exit.Finished? ==> loop.Some? && !loop.value && played == |steps|
      ensures exit.LoopMissing? ==> loop.None? && played == |steps|
      ensures exit.StillRunning? ==> played == window && (loop != Some(true) ==> window < |steps|)
      ensures exit.Halted? ==> StopSeen(clock)
      ensures NothingFails(steps, clock.env, sendRaises) ==> !exit.Crashed?
      ensures NothingFails(steps, clock.env, sendRaises) && NoFlag(clock.env) && loop == Some(false)
              && |steps| <= window ==>
                exit.Finished?
    {
      hide *;
      var currentStep: int := -1;
      ghost var from := clock.now;
      played, run := 0, Played(registry.Abs(), sent, []);
      BeginsOnTrack(clock, slack);
      PreviousStep(0, |steps|);
      while !StopSeen(clock)
        invariant fresh(registry.alarms.Values - old(registry.alarms.Values))
        invariant run.start == old(registry.Abs()) && run.sentBefore == old(sent)
        invariant played <= window && (loop != Some(true) ==> played <= |steps|)
        invariant !stopped && steps == old(steps) && loop == old(loop)
        invariant currentStep == Previous(played, |steps|)
        invariant OnTrack(run, from, played, clock, slack)
        decreases window - played
      {
        var next := NextStep(currentStep, played);
        if next.None? {
          if loop.None? {
            return LoopMissing, played, run;
          }
          stopped := true;
          return Finished, played, run;
        }
        if played == window {
          return StillRunning, played, run;
        }
        currentStep := next.value;
        PreviousStep(played, |steps|);
        var raised;
        raised, run := Turn(played, clock, sendRaises(played), run, from, slack);
        if raised {
          if NothingFails(steps, clock.env, sendRaises) {
            NothingFailsNothingBreaks(run, registry.Abs(), sent, steps, played, clock.env, sendRaises);
          }
          return Crashed, played, run;
        }
        played := played + 1;
      }
      stopped := true;
      NoFlagNoStop(clock);
      exit := Halted;
    }
  }

  ghost predicate Notifications(events: seq<R.Event>) {
    forall e :: e in events ==> e.Notify?
  }

  lemma NotifsGrow(events: seq<R.Event>, e: R.Event)
    requires Notifications(events) && e.Notify?
    ensures Notifications(events + [e]) && NotifsOf(events + [e]) == NotifsOf(events) + [e.n]
  {
    assert (events + [e])[..|events|] == events;
  }

  /** A step extends the run by its notification, if it has one. */
  function OneStepMore(run: Played, event: Option<R.Event>): Played {
    if event.None? then run else run.(events := run.events + [event.value])
  }

  lemma StepExtendsRun(run: Played, list: R.Registry, sent: seq<R.Notif>, next: R.Registry, sentNext: seq<R.Notif>,
                       steps: seq<Step>, k: nat, event: Option<R.Event>, m: Moment, env: Env, sendRaises: bool)
    requires steps != [] && run.Reaches(list, sent, steps, k)
    requires event == (var alarm := StepAt(steps, k).alarm;
                       if alarm.Some? then Some(R.Notify(alarm.value, 1000 * m.now)) else None)
    requires next == if event.Some? then R.Apply(list, event.value).1 else list
    requires if event.Some? && !AlarmFails(list, StepAt(steps, k), m.now, sendRaises)
             then sentNext == sent + R.Shown(next, event.value) && |sentNext| == |sent| + 1
             else sentNext == sent
    ensures var (longer, step) := (OneStepMore(run, event), StepAt(steps, k));
            if AlarmFails(list, step, m.now, sendRaises) || SleepFails(env, step, m)
            then longer.Breaks(next, sentNext, steps, k, env, sendRaises)
            else longer.Reaches(next, sentNext, steps, k + 1)
  {
    hide R.Run, R.Apply, R.AllApplied, R.SentOf, R.Shown, R.CannotSend, NotifsOf, SleepFails;
    if event.Some? {
      R.RunOneMore(run.start, run.events, event.value);
      R.SentOneMore(run.start, run.events, event.value);
      NotifsGrow(run.events, event.value);
      SendableIsApplied(list, event.value.n, event.value.now);
    }
    if AlarmFails(list, StepAt(steps, k), m.now, sendRaises) || SleepFails(env, StepAt(steps, k), m) {
      assert OneStepMore(run, event).Failed(run.events, m, sentNext, steps, k, env, sendRaises);
    }
  }

  lemma SendableIsApplied(list: R.Registry, n: R.Notif, now: int)
    ensures !R.CannotSend(list, n, now) ==> R.Apply(list, R.Notify(n, now)).0.Applied?
  {
  }

  /** A step takes its delay and at most three clock accesses more. */
  lemma StepTakes(steps: seq<Step>, k: nat, m: Moment, env: Env, slack: nat)
    requires steps != []
    ensures var step := StepAt(steps, k);
            step.delay.Some? && Bounded(env, slack) && !SleepFails(env, step, m) ==>
              SaSleep(env, m, step.delay.value, true).1.now <= m.now + SleepOf(step) + 3 * slack
    ensures (k + 1) * (3 * slack) == k * (3 * slack) + 3 * slack
  {
    hide SaSleep;
    var step := StepAt(steps, k);
    if step.delay.Some? && Bounded(env, slack) {
      Timing(env, slack, m, step.delay.value, true);
    }
    OneTimesMore(k, 3 * slack);
  }

  lemma OneTimesMore(k: nat, d: nat)
    ensures (k + 1) * d == k * d + d
  {
  }

  /** An alarm that any list can take, and whose notification can always be sent. */
  predicate Complete(n: R.Notif) {
    && n.text.Some? && n.severity.Some?
    && R.ParseSeverity(n.severity.value).Some? && R.ParseSeverity(n.severity.value) != Some(R.Cleared)
  }

  predicate NoFlag(env: Env) {
    env.stop.Never? && env.extra.Never?
  }

  /** Whatever the list, no step can raise. */
  ghost predicate NothingFails(steps: seq<Step>, env: Env, sendRaises: nat -> bool) {
    && (forall s :: s in steps && s.alarm.Some? ==> Complete(s.alarm.value))
    && (forall s, m :: s in steps ==> !SleepFails(env, s, m))
    && forall k :: !sendRaises(k)
  }

  lemma NothingFailsNothingBreaks(run: Played, list: R.Registry, sent: seq<R.Notif>, steps: seq<Step>, k: nat, env: Env,
                                  sendRaises: nat -> bool)
    requires steps != [] && NothingFails(steps, env, sendRaises)
    ensures !run.Breaks(list, sent, steps, k, env, sendRaises(k))
  {
    hide R.Run, R.AllApplied, R.SentOf, NotifsOf, SleepFails, R.CannotSend;
    var step := StepAt(steps, k);
    assert step in steps;
    forall earlier: seq<R.Event>, m: Moment
      ensures !run.Failed(earlier, m, sent, steps, k, env, sendRaises(k))
    {
      if step.alarm.Some? {
        R.CannotSendIff(R.Run(run.start, earlier), step.alarm.value, 1000 * m.now);
      }
    }
  }

  /** On a clock whose accesses take no more than a millisecond no sleep raises. */
  lemma QuickClockNeverFails(env: Env, step: Step, m: Moment)
    requires Bounded(env, 1)
    ensures !SleepFails(env, step, m)
  {
    if step.delay.Some? {
      QuickSleepNeverRaises(env, m, step.delay.value, true);
    }
  }
}
