/**
 One counter of an alarm, shared by two threads: the task adds one in two steps, reading the attribute and
 then writing it, and the REST thread may write a zero at any moment. AlarmRegistry takes both for one event.
 */
module AlarmCounters {
  import opened Strings

  /** What is stored, and what the task has read but not yet written back. */
  datatype Counter = Counter(value: nat, read: Option<nat>)

  datatype Step = Read | Write | Zero

  predicate Possible(c: Counter, s: Step) {
    && (s.Read? ==> c.read.None?)
    && (s.Write? ==> c.read.Some?)
  }

  function Next(c: Counter, s: Step): Counter
    requires Possible(c, s)
  {
    match s
    case Read => c.(read := Some(c.value))
    case Write => Counter(c.read.value + 1, None)
    case Zero => c.(value := 0)
  }

  /** An interleaving of the two threads. */
  predicate IsRun(c: Counter, steps: seq<Step>)
    decreases |steps|
  {
    steps != [] ==> Possible(c, steps[0]) && IsRun(Next(c, steps[0]), steps[1..])
  }

  function After(c: Counter, steps: seq<Step>): Counter
    requires IsRun(c, steps)
    decreases |steps|
  {
    if steps == [] then c else After(Next(c, steps[0]), steps[1..])
  }

  /** How often something was counted. */
  function Writes(steps: seq<Step>): nat {
    if steps == [] then 0 else (if steps[0].Write? then 1 else 0) + Writes(steps[1..])
  }

  lemma {:induction false} RunSplits(c: Counter, before: seq<Step>, after: seq<Step>)
    requires IsRun(c, before + after)
    ensures IsRun(c, before) && IsRun(After(c, before), after)
    ensures After(c, before + after) == After(After(c, before), after)
    decreases |before|
  {
    if before == [] {
      assert before + after == after;
    } else {
      assert (before + after)[1..] == before[1..] + after;
      RunSplits(Next(c, before[0]), before[1..], after);
    }
  }

  /** By how much the first write is going to differ from adding one to what is stored. */
  function Stale(c: Counter): int {
    if c.read.Some? then c.read.value - c.value else 0
  }

  /** Without a clear on the way, the counter grows by the writes, the first of which may rest on a stale read. */
  lemma {:induction false} GrowsByWrites(c: Counter, steps: seq<Step>)
    requires IsRun(c, steps) && Zero !in steps
    ensures After(c, steps).value == c.value + Writes(steps) + (if Writes(steps) > 0 then Stale(c) else 0)
    decreases |steps|
  {
    if steps != [] {
      GrowsByWrites(Next(c, steps[0]), steps[1..]);
    }
  }

  /** What the task has read when the clear comes, if it writes it back later. */
  function Restored(c: Counter, after: seq<Step>): nat {
    if c.read.Some? && Writes(after) > 0 then c.read.value else 0
  }

  /**
   In every interleaving, after the last clear the counter is the number of additions completed since, plus
   what an addition that was under way has brought back.
   */
  lemma CountSinceLastClear(c: Counter, before: seq<Step>, after: seq<Step>)
    requires IsRun(c, before + ([Zero] + after)) && Zero !in after
    ensures IsRun(c, before)
    ensures After(c, before + ([Zero] + after)).value == Writes(after) + Restored(After(c, before), after)
  {
    RunSplits(c, before, [Zero] + after);
    var atClear := After(c, before);
    assert ([Zero] + after)[1..] == after;
    GrowsByWrites(Next(atClear, Zero), after);
  }

  /**
   The counter says how much was counted since the clear, unless an addition was under way that had read more than
   zero.
   */
  lemma CountersAddUpIff(c: Counter, before: seq<Step>, after: seq<Step>)
    requires IsRun(c, before + ([Zero] + after)) && Zero !in after
    ensures IsRun(c, before)
    ensures After(c, before + ([Zero] + after)).value == Writes(after) <==>
              !(After(c, before).read.Some? && After(c, before).read.value > 0 && Writes(after) > 0)
  {
    CountSinceLastClear(c, before, after);
  }

  /** A clear in the middle of an addition is lost whatever was counted: the counter is what it would be without it. */
  lemma ClearIsLost(n: nat)
    ensures IsRun(Counter(n, None), [Read, Zero, Write])
    ensures After(Counter(n, None), [Read, Zero, Write]) == After(Counter(n, None), [Read, Write])
            == Counter(n + 1, None)
  {
    var c, steps := Counter(n, None), [Read, Zero, Write];
    assert steps[1..] == [Zero, Write] && steps[1..][1..] == [Write] && [Write][1..] == [];
    assert [Read, Write][1..] == [Write];
    assert IsRun(Next(Next(c, Read), Zero), [Write]) && IsRun(Next(c, Read), [Zero, Write])
           && IsRun(Next(c, Read), [Write]);
  }
}
