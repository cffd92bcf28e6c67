/**
 The handshake between the REST thread, which runs start and stop, and the task threads that start
 creates. Every shared access is a step of its own, so a task thread may run between any two statements of
 start and stop; there is one REST thread, which runs one call at a time.
 */
module FaultHandshake {
  import opened AlarmSteps
  import opened Strings

  /**
   Where the REST thread is: after start's test of stopped, load_alarms, clear and assignment, or after stop's test.
   */
  datatype Rest = Idle | StartChecked(program: seq<Step>) | StartLoaded | StartCleared | StartOpened | StopChecked

  /** Where a task thread is: at the loop test, in a step's alarm, in its sleep, or behind the loop. */
  datatype Stage = AtTest | Playing | Sleeping | Leaving | Over | Dead

  /** A task thread, with the steps it was started for and the turns it has begun. */
  datatype Task = Task(stage: Stage, program: seq<Step>, turns: nat)

  datatype State = State(rest: Rest, stopped: bool, stopEvent: bool, terminating: bool,
      steps: seq<Step>, tasks: seq<Task>)

  datatype Action =
    | CallStart(program: seq<Step>) | Load | ClearEvent | Open | Spawn
    | CallStop | SetEvent
    | Terminate
    | Test(t: nat) | Play(t: nat) | RunOut(t: nat) | Wake(t: nat) | Leave(t: nat) | Raise(t: nat)

  const INITIAL := State(Idle, true, false, false, [], [])

  predicate Live(t: Task) {
    !t.stage.Over? && !t.stage.Dead?
  }

  predicate IsTaskAction(a: Action) {
    a.Test? || a.Play? || a.RunOut? || a.Wake? || a.Leave? || a.Raise?
  }

  /** An action other than a call is only possible where its thread stands. */
  predicate Enabled(s: State, a: Action) {
    match a
    case CallStart(_) => s.rest.Idle?
    case Load => s.rest.StartChecked?
    case ClearEvent => s.rest.StartLoaded?
    case Open => s.rest.StartCleared?
    case Spawn => s.rest.StartOpened?
    case CallStop => s.rest.Idle?
    case SetEvent => s.rest.StopChecked?
    case Terminate => true
    case Test(t) => t < |s.tasks| && s.tasks[t].stage.AtTest?
    case Play(t) => t < |s.tasks| && s.tasks[t].stage.Playing?
    case RunOut(t) => t < |s.tasks| && s.tasks[t].stage.Playing?
    case Wake(t) => t < |s.tasks| && s.tasks[t].stage.Sleeping?
    case Leave(t) => t < |s.tasks| && s.tasks[t].stage.Leaving?
    case Raise(t) => t < |s.tasks| && (s.tasks[t].stage.Playing? || s.tasks[t].stage.Sleeping?)
  }

  function Move(s: State, t: nat, stage: Stage): State
    requires t < |s.tasks|
  {
    s.(tasks := s.tasks[t := s.tasks[t].(stage := stage)])
  }

  function Do(s: State, a: Action): State
    requires Enabled(s, a)
  {
    match a
    case CallStart(program) => if s.stopped then s.(rest := StartChecked(program)) else s
    case Load => if Accepted(s.rest.program) then s.(rest := StartLoaded, steps := s.rest.program) else s.(rest := Idle)
    case ClearEvent => s.(rest := StartCleared, stopEvent := false)
    case Open => s.(rest := StartOpened, stopped := false)
    case Spawn => s.(rest := Idle, tasks := s.tasks + [Task(AtTest, s.steps, 0)])
    case CallStop => if s.stopped then s else s.(rest := StopChecked)
    case SetEvent => s.(rest := Idle, stopEvent := true)
    case Terminate => s.(terminating := true)
    case Test(t) =>
      if !s.stopped && !s.terminating && !s.stopEvent
      then s.(tasks := s.tasks[t := s.tasks[t].(stage := Playing, turns := s.tasks[t].turns + 1)])
      else Move(s, t, Leaving)
    case Play(t) => Move(s, t, Sleeping)
    case RunOut(t) => Move(s, t, Leaving)
    case Wake(t) => Move(s, t, AtTest)
    case Leave(t) => Move(s, t, Over).(stopped := true)
    case Raise(t) => Move(s, t, Dead)
  }

  /** An action that is not possible where it stands is skipped. */
  function Next(s: State, a: Action): State {
    if Enabled(s, a) then Do(s, a) else s
  }

  /** An interleaving. */
  function Run(s: State, actions: seq<Action>): State
    decreases |actions|
  {
    if actions == [] then s else Run(Next(s, actions[0]), actions[1..])
  }

  // ---------- the invariant ----------

  predicate AllOverBefore(tasks: seq<Task>, n: nat)
    requires n <= |tasks|
  {
    forall i :: 0 <= i < n ==> tasks[i].stage.Over?
  }

  predicate AllOver(s: State) {
    AllOverBefore(s.tasks, |s.tasks|)
  }

  predicate Starting(s: State) {
    !s.rest.Idle? && !s.rest.StopChecked?
  }

  predicate Inv(s: State) {
    && (s.tasks != [] ==> AllOverBefore(s.tasks, |s.tasks| - 1))
    && (Starting(s) ==> AllOver(s) && (s.stopped <==> !s.rest.StartOpened?))
    && (!Starting(s) ==> (s.stopped <==> AllOver(s)))
    && ((s.rest.StartLoaded? || s.rest.StartCleared? || s.rest.StartOpened?) ==> Accepted(s.steps))
    && forall i :: 0 <= i < |s.tasks| && !s.tasks[i].stage.Over? ==> s.tasks[i].program == s.steps && Accepted(s.steps)
  }

  lemma DoKeepsInv(s: State, a: Action)
    requires Inv(s) && Enabled(s, a)
    ensures Inv(Do(s, a))
  {
    if IsTaskAction(a) {
      assert !s.tasks[a.t].stage.Over?;
      assert a.t == |s.tasks| - 1;
      var s' := Do(s, a);
      assert |s'.tasks| == |s.tasks| && AllOverBefore(s'.tasks, |s'.tasks| - 1);
      assert AllOver(s') <==> s'.tasks[a.t].stage.Over?;
    } else if a.Spawn? {
      assert Do(s, a).tasks[|s.tasks|].stage.AtTest?;
    }
  }

  lemma {:induction false} RunKeepsInv(s: State, actions: seq<Action>)
    requires Inv(s)
    ensures Inv(Run(s, actions))
    decreases |actions|
  {
    if actions != [] {
      if Enabled(s, actions[0]) {
        DoKeepsInv(s, actions[0]);
      }
      RunKeepsInv(Next(s, actions[0]), actions[1..]);
    }
  }

  /**
   Safety over every interleaving: at most one task is live; while one is live, stopped is false and the
   installed steps are the accepted ones it was started for.
   */
  lemma OneLiveTaskOnItsOwnSteps(actions: seq<Action>)
    ensures var s := Run(INITIAL, actions);
            && (forall i, j :: 0 <= i < |s.tasks| && 0 <= j < |s.tasks| && Live(s.tasks[i]) && Live(s.tasks[j]) ==>
                  i == j)
            && (forall i :: 0 <= i < |s.tasks| && Live(s.tasks[i]) ==>
                 !s.stopped && s.tasks[i].program == s.steps && Accepted(s.steps))
  {
    RunKeepsInv(INITIAL, actions);
    var s := Run(INITIAL, actions);
    forall i, j | 0 <= i < |s.tasks| && 0 <= j < |s.tasks| && Live(s.tasks[i]) && Live(s.tasks[j])
      ensures i == j
    {
      assert !s.tasks[i].stage.Over? && !s.tasks[j].stage.Over?;
    }
  }

  /** Between calls, start is refused exactly as long as the last task thread is live or died of an exception. */
  lemma StartRefusedIff(actions: seq<Action>, program: seq<Step>)
    requires Run(INITIAL, actions).rest.Idle?
    ensures var s := Run(INITIAL, actions);
            Do(s, CallStart(program)) == s <==> s.tasks != [] && !s.tasks[|s.tasks| - 1].stage.Over?
  {
    RunKeepsInv(INITIAL, actions);
  }

  // ---------- a stop request is never lost ----------

  /** The number of its own steps a task can still take once the event is set. */
  function StepsLeft(t: Task): nat {
    match t.stage
    case Sleeping => 4
    case Playing => 5
    case AtTest => 3
    case Leaving => 2
    case Over => 1
    case Dead => 1
  }

  /** Task thread t has been asked to stop: the event is set, or it is no longer live. */
  predicate Asked(s: State, t: nat) {
    t < |s.tasks| && (s.stopEvent || !Live(s.tasks[t]))
  }

  lemma DoKeepsAsked(s: State, a: Action, t: nat)
    requires Inv(s) && Asked(s, t) && Enabled(s, a)
    ensures var s' := Do(s, a);
            && Asked(s', t) && s'.tasks[t].turns == s.tasks[t].turns
            && (if IsTaskAction(a) && a.t == t then StepsLeft(s'.tasks[t]) < StepsLeft(s.tasks[t])
                 else s'.tasks[t] == s.tasks[t])
  {
    if a.ClearEvent? {
      assert s.tasks[t].stage.Over?;
    }
  }

  /** The steps a task takes in an interleaving. */
  function StepsOf(s: State, actions: seq<Action>, t: nat): nat
    decreases |actions|
  {
    if actions == [] then 0
    else if !Enabled(s, actions[0]) then StepsOf(s, actions[1..], t)
    else (if IsTaskAction(actions[0]) && actions[0].t == t then 1 else 0) + StepsOf(Do(s, actions[0]), actions[1..], t)
  }

  lemma {:induction false} AskedTaskEnds(s: State, actions: seq<Action>, t: nat)
    requires Inv(s) && Asked(s, t)
    ensures var s' := Run(s, actions);
            && Asked(s', t) && s'.tasks[t].turns == s.tasks[t].turns
            && StepsOf(s, actions, t) + StepsLeft(s'.tasks[t]) <= StepsLeft(s.tasks[t])
    decreases |actions|
  {
    if actions != [] {
      if Enabled(s, actions[0]) {
        DoKeepsInv(s, actions[0]);
        DoKeepsAsked(s, actions[0], t);
        AskedTaskEnds(Do(s, actions[0]), actions[1..], t);
      } else {
        AskedTaskEnds(s, actions[1..], t);
      }
    }
  }

  /**
   A stop request is never lost: once stop has set the event, then whatever calls and tasks follow, the
   task that was there begins no further turn, and after at most four more steps of its own it is gone.
   */
  lemma StopIsNeverLost(before: seq<Action>, after: seq<Action>, t: nat)
    requires var s := Run(INITIAL, before); s.rest.StopChecked? && t < |s.tasks|
    ensures var s := Do(Run(INITIAL, before), SetEvent);
            var s' := Run(s, after);
            && t < |s'.tasks| && s'.tasks[t].turns == s.tasks[t].turns
            && StepsOf(s, after, t) <= 4
            && (StepsOf(s, after, t) == 4 ==> !Live(s'.tasks[t]))
  {
    RunKeepsInv(INITIAL, before);
    var s := Run(INITIAL, before);
    DoKeepsInv(s, SetEvent);
    AskedTaskEnds(Do(s, SetEvent), after, t);
  }

  lemma RunFour(s0: State, s1: State, s2: State, s3: State, a0: Action, a1: Action, a2: Action, a3: Action)
    requires Next(s0, a0) == s1 && Next(s1, a1) == s2 && Next(s2, a2) == s3
    ensures Run(s0, [a0, a1, a2, a3]) == Next(s3, a3)
  {
    assert Run(s3, [a3]) == Next(s3, a3);
    assert Run(s2, [a2, a3]) == Run(s3, [a3]);
    assert Run(s1, [a1, a2, a3]) == Run(s2, [a2, a3]);
  }

  /**
   And it can always get there by itself: wherever a live task stands when the event is set, or the program is to
   end, playing on, waking up, testing and leaving end it and make the feature startable.
   */
  lemma AskedTaskCanEnd(s: State, t: nat)
    requires (s.stopEvent || s.terminating) && t < |s.tasks| && Live(s.tasks[t])
    ensures var s' := Run(s, [Play(t), Wake(t), Test(t), Leave(t)]);
            s' == Move(s, t, Over).(stopped := true)
  {
    hide Run;
    var w := s.tasks[t];
    var s1 := Next(s, Play(t));
    var s2 := Next(s1, Wake(t));
    var s3 := Next(s2, Test(t));
    RunFour(s, s1, s2, s3, Play(t), Wake(t), Test(t), Leave(t));
    MovesOn(s, t, w, w);
    MovesOn(s, t, w.(stage := Sleeping), w.(stage := AtTest));
    MovesOn(s, t, w.(stage := AtTest), w.(stage := Leaving));
    MovesOn(s, t, w.(stage := Leaving), w.(stage := Over));
    assert s1 == s || s1 == With(s, t, w.(stage := Sleeping));
    assert s2.tasks[t].stage.AtTest? || s2.tasks[t].stage.Leaving?;
    assert s3 == With(s, t, w.(stage := Leaving));
  }

  /** The end of the program reaches every live task. */
  lemma TerminationEndsTasks(s: State, t: nat)
    requires t < |s.tasks| && Live(s.tasks[t])
    ensures Run(s, [Terminate, Play(t), Wake(t), Test(t), Leave(t)]).tasks == s.tasks[t := s.tasks[t].(stage := Over)]
  {
    hide Run;
    RunInTwo(s, [Terminate], [Play(t), Wake(t), Test(t), Leave(t)]);
    RunOne(s, Terminate);
    AskedTaskCanEnd(Next(s, Terminate), t);
    assert [Terminate] + [Play(t), Wake(t), Test(t), Leave(t)] == [Terminate, Play(t), Wake(t), Test(t), Leave(t)];
  }

  /** Without a request to stop, a task that tests plays a turn, and is back at its test after it. */
  lemma TasksTakeTurns(s: State, t: nat)
    requires !s.stopped && !s.terminating && !s.stopEvent && t < |s.tasks| && s.tasks[t].stage.AtTest?
    ensures Run(s, [Test(t), Play(t), Wake(t)]) == s.(tasks := s.tasks[t := s.tasks[t].(turns := s.tasks[t].turns + 1)])
  {
    hide Run, Next;
    var w := s.tasks[t].(turns := s.tasks[t].turns + 1);
    var s1 := With(s, t, w.(stage := Playing));
    var s2 := With(s, t, w.(stage := Sleeping));
    TestBeginsTurn(s, t);
    MovesOn(s, t, w.(stage := Playing), w.(stage := Sleeping));
    PlayThenWake(s1, t);
    MovesOn(s, t, w.(stage := Sleeping), w.(stage := AtTest));
    PlayThenWake(s2, t);
    RunThree(s, s1, s2, Test(t), Play(t), Wake(t));
  }

  lemma TestBeginsTurn(s: State, t: nat)
    requires !s.stopped && !s.terminating && !s.stopEvent && t < |s.tasks| && s.tasks[t].stage.AtTest?
    ensures Next(s, Test(t)) == With(s, t, s.tasks[t].(stage := Playing, turns := s.tasks[t].turns + 1))
  {
  }

  lemma PlayThenWake(s: State, t: nat)
    requires t < |s.tasks|
    ensures s.tasks[t].stage.Playing? ==> Next(s, Play(t)) == With(s, t, s.tasks[t].(stage := Sleeping))
    ensures s.tasks[t].stage.Sleeping? ==> Next(s, Wake(t)) == With(s, t, s.tasks[t].(stage := AtTest))
  {
  }

  function With(s: State, t: nat, w: Task): State
    requires t < |s.tasks|
  {
    s.(tasks := s.tasks[t := w])
  }

  /** Assigning the place of a task again is assigning it once. */
  lemma MovesOn(s: State, t: nat, w: Task, next: Task)
    requires t < |s.tasks|
    ensures With(With(s, t, w), t, next) == With(s, t, next)
    ensures With(s, t, w).tasks[t] == w && |With(s, t, w).tasks| == |s.tasks|
    ensures w == s.tasks[t] ==> With(s, t, w) == s
    ensures Move(With(s, t, w), t, next.stage) == With(s, t, w.(stage := next.stage))
  {
  }

  lemma RunThree(s0: State, s1: State, s2: State, a0: Action, a1: Action, a2: Action)
    requires Next(s0, a0) == s1 && Next(s1, a1) == s2
    ensures Run(s0, [a0, a1, a2]) == Next(s2, a2)
  {
    assert Run(s2, [a2]) == Next(s2, a2);
    assert Run(s1, [a1, a2]) == Run(s2, [a2]);
  }

  /** A turn can die of an exception while it plays its step and while it sleeps, and then leaves stopped unset. */
  lemma TurnsCanDie(s: State, t: nat)
    requires t < |s.tasks| && (s.tasks[t].stage.Playing? || s.tasks[t].stage.Sleeping?)
    ensures Run(s, [Raise(t)]) == Move(s, t, Dead)
  {
    hide Run;
    RunOne(s, Raise(t));
  }

  lemma RunOne(s: State, a: Action)
    ensures Run(s, [a]) == Next(s, a)
  {
    assert [a][1..] == [];
    assert Run(Next(s, a), []) == Next(s, a);
  }

  // ---------- an exception in a task thread ----------

  lemma {:induction false} DeadTaskBlocks(s: State, actions: seq<Action>, t: nat)
    requires Inv(s) && t < |s.tasks| && s.tasks[t].stage.Dead?
    ensures var s' := Run(s, actions);
            && |s'.tasks| == |s.tasks| && s'.tasks[t] == s.tasks[t] && !s'.stopped && s'.steps == s.steps
    decreases |actions|
  {
    if actions != [] {
      if Enabled(s, actions[0]) {
        DoKeepsInv(s, actions[0]);
        assert !s.tasks[t].stage.Over?;
        DeadTaskBlocks(Do(s, actions[0]), actions[1..], t);
      } else {
        DeadTaskBlocks(s, actions[1..], t);
      }
    }
  }

  lemma {:induction false} RunInTwo(s: State, a: seq<Action>, b: seq<Action>)
    ensures Run(s, a + b) == Run(Run(s, a), b)
    decreases |a|
  {
    if a == [] {
      assert a + b == b;
    } else {
      assert (a + b)[1..] == a[1..] + b;
      RunInTwo(Next(s, a[0]), a[1..], b);
    }
  }

  /** Whatever stage a live task is in, these steps end it. */
  function Finish(t: int): seq<Action> {
    if t < 0 then [] else [Wake(t), Test(t), RunOut(t), Leave(t)]
  }

  lemma LastTaskFinishes(s: State)
    requires Inv(s) && s.rest.Idle? && forall t :: 0 <= t < |s.tasks| ==> !s.tasks[t].stage.Dead?
    ensures var s' := Run(s, Finish(|s.tasks| - 1)); s'.rest.Idle? && s'.stopped && |s'.tasks| == |s.tasks|
  {
    var t := |s.tasks| - 1;
    if t >= 0 {
      var s1 := Next(s, Wake(t));
      var s2 := Next(s1, Test(t));
      var s3 := Next(s2, RunOut(t));
      assert s3.tasks[t].stage.Leaving? || s3.tasks[t].stage.Over?;
      assert Run(s3, [Leave(t)]) == Next(s3, Leave(t));
      assert Run(s2, [RunOut(t), Leave(t)]) == Run(s3, [Leave(t)]);
      assert Run(s1, [Test(t), RunOut(t), Leave(t)]) == Run(s2, [RunOut(t), Leave(t)]);
    }
  }

  lemma RunFive(s0: State, s1: State, s2: State, s3: State, s4: State, a0: Action, a1: Action, a2: Action,
                a3: Action, a4: Action)
    requires Next(s0, a0) == s1 && Next(s1, a1) == s2 && Next(s2, a2) == s3 && Next(s3, a3) == s4
    ensures Run(s0, [a0, a1, a2, a3, a4]) == Next(s4, a4)
  {
    assert Run(s4, [a4]) == Next(s4, a4);
    assert Run(s3, [a3, a4]) == Run(s4, [a4]);
    assert Run(s2, [a2, a3, a4]) == Run(s3, [a3, a4]);
    assert Run(s1, [a1, a2, a3, a4]) == Run(s2, [a2, a3, a4]);
  }

  /** The steps of one call of start; those that are not reached are skipped. */
  function StartSteps(program: seq<Step>): seq<Action> {
    [CallStart(program), Load, ClearEvent, Open, Spawn]
  }

  /** What start does when nothing comes in between. */
  lemma StartUninterrupted(s: State, program: seq<Step>)
    requires s.rest.Idle?
    ensures Run(s, StartSteps(program)) ==
            if s.stopped && Accepted(program)
            then s.(stopped := false, stopEvent := false, steps := program, 
                    tasks := s.tasks + [Task(AtTest, program, 0)])
            else s
  {
    var s1 := Next(s, CallStart(program));
    var s2 := Next(s1, Load);
    var s3 := Next(s2, ClearEvent);
    var s4 := Next(s3, Open);
    RunFive(s, s1, s2, s3, s4, CallStart(program), Load, ClearEvent, Open, Spawn);
  }

  lemma OneMillisecondIsAccepted()
    ensures Accepted([Step(None, Some(1))])
  {
    var program := [Step(None, Some(1))];
    assert program[..0] == [] && TotalDelay(program) == TotalDelay(program[..0]) + 1;
  }

  /** The fields that the REST thread and the task threads share, with the two calls of the REST interface. */
  class Feature {
    var stopped: bool
    var stopEvent: bool
    var terminating: bool
    var steps: seq<Step>
    var tasks: seq<Task>

    constructor ()
      ensures Shared() == INITIAL
    {
      stopped, stopEvent, terminating, steps, tasks := true, false, false, [], [];
    }

    function Shared(): State
      reads this
    {
      State(Idle, stopped, stopEvent, terminating, steps, tasks)
    }

    method Start(program: seq<Step>) returns (code: int)
      modifies this
      ensures Shared() == Run(old(Shared()), StartSteps(program))
      ensures code == if old(stopped) && Accepted(program) then 200 else 500
    {
      StartUninterrupted(Shared(), program);
      if !stopped {
        return 500;
      }
      if TotalDelay(program) == 0 {
        return 500;
      }
      steps := program;
      stopEvent := false;
      stopped := false;
      tasks := tasks + [Task(AtTest, steps, 0)];
      code := 200;
    }

    method Stop() returns (code: int)
      modifies `stopEvent
      ensures Shared() == Run(old(Shared()), [CallStop, SetEvent])
      ensures code == if old(stopped) then 500 else 200
    {
      ghost var called := Next(Shared(), CallStop);
      assert Run(called, [SetEvent]) == Next(called, SetEvent);
      if stopped {
        return 500;
      }
      stopEvent := true;
      code := 200;
    }
  }

  /**
   The feature recovers from the end of its thread exactly when that was not an exception: with no call under
   way, some interleaving starts another task if and only if no task has died.
   */
  lemma RestartableIffNoException(actions: seq<Action>)
    requires Run(INITIAL, actions).rest.Idle?
    ensures var s := Run(INITIAL, actions);
            (exists more :: |Run(s, more).tasks| > |s.tasks|) <==>
                !exists t :: 0 <= t < |s.tasks| && s.tasks[t].stage.Dead?
  {
    RunKeepsInv(INITIAL, actions);
    var s := Run(INITIAL, actions);
    if t :| 0 <= t < |s.tasks| && s.tasks[t].stage.Dead? {
      forall more ensures |Run(s, more).tasks| == |s.tasks| {
        DeadTaskBlocks(s, more, t);
      }
    } else {
      var finish, start := Finish(|s.tasks| - 1), StartSteps([Step(None, Some(1))]);
      RunInTwo(s, finish, start);
      RunKeepsInv(s, finish);
      LastTaskFinishes(s);
      OneMillisecondIsAccepted();
      StartUninterrupted(Run(s, finish), [Step(None, Some(1))]);
      assert |Run(s, finish + start).tasks| > |s.tasks|;
    }
  }
}
