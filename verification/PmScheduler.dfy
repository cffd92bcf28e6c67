/**
 What the polling loop of the performance-management task reports, as a function of the instants at
 which it reads the clock. All instants are milliseconds, periods and boundaries are seconds.
 */
module PmScheduler {
  import Multiples

  /**
   One turn of the loop. A turn that is not due reads the clock once, at poll; a due turn also reads
   it for the end of the report, writes the file, reads it for the next start, and cleans up.
   */
  datatype Tick = Tick(poll: nat, endRead: nat, written: nat, startRead: nat, cleaned: nat)

  /**
   A report: the boundary it was due at, the value set it shows, the interval it claims to cover, when
   its file was written, and when the cleanup that follows it ran.
   */
  datatype Report = Report(boundary: nat, valueIndex: nat, start: nat, end: nat, written: nat, cleaned: nat)

  function ReportOf(t: Tick, valueIndex: nat, start: nat): Report {
    Report(Second(t.poll), valueIndex, start, WholeSecond(t.endRead), t.written, t.cleaned)
  }

  function Second(t: nat): nat {
    t / 1000
  }

  /** replace(microsecond=0) */
  function WholeSecond(t: nat): nat {
    t / 1000 * 1000
  }

  predicate Due(p: nat, t: Tick)
    requires p > 0
  {
    Second(t.poll) % p == 0
  }

  function NextIndex(index: int, n: nat): int {
    if index + 1 >= n then 0 else index + 1
  }

  /** The reports of a run that enters the loop with the given start time and value index. */
  function Reports(p: nat, n: nat, start: nat, index: int, ticks: seq<Tick>): seq<Report>
    requires p > 0 && -1 <= index
    decreases |ticks|
  {
    if ticks == [] then []
    else if Due(p, ticks[0]) then
      var next := NextIndex(index, n);
      [ReportOf(ticks[0], next, start)]
      + Reports(p, n, WholeSecond(ticks[0].startRead), next, ticks[1..])
    else Reports(p, n, start, index, ticks[1..])
  }

  /** The clock does not run backwards inside a turn. */
  predicate Ordered(t: Tick) {
    t.poll <= t.endRead <= t.written <= t.startRead <= t.cleaned
  }

  /** Every turn comes after the one before it; a reporting turn ends with the sleeps of 1 s and 0.1 s. */
  ghost predicate Monotone(p: nat, ticks: seq<Tick>)
    requires p > 0
  {
    && (forall i :: 0 <= i < |ticks| ==> Ordered(ticks[i]))
    && (forall i :: 0 < i < |ticks| ==>
          ticks[i-1].cleaned + (if Due(p, ticks[i-1]) then 1100 else 100) <= ticks[i].poll)
  }

  /** Idle turns poll again within a second; a reporting turn and its sleeps take less than one period. */
  ghost predicate Paced(p: nat, ticks: seq<Tick>)
    requires p > 0
  {
    && Monotone(p, ticks)
    && (forall i :: 0 < i < |ticks| ==>
          ticks[i].poll < ticks[i-1].poll + (if Due(p, ticks[i-1]) then 1000 * p else 1000))
  }

  /** The clock readings of a reporting turn stay within the second the report is due in. */
  ghost predicate Prompt(p: nat, ticks: seq<Tick>)
    requires p > 0
  {
    forall i :: 0 <= i < |ticks| && Due(p, ticks[i]) ==> Second(ticks[i].startRead) == Second(ticks[i].poll)
  }

  lemma Tail(p: nat, ticks: seq<Tick>)
    requires p > 0 && ticks != [] && Monotone(p, ticks)
    ensures Monotone(p, ticks[1..])
    ensures Paced(p, ticks) ==> Paced(p, ticks[1..])
    ensures Prompt(p, ticks) ==> Prompt(p, ticks[1..])
  {
    var rest := ticks[1..];
    assert forall i :: 0 <= i < |rest| ==> rest[i] == ticks[i + 1];
  }

  /** The state in which the loop goes on after the first turn. */
  function StartAfter(p: nat, start: nat, t: Tick): nat
    requires p > 0
  {
    if Due(p, t) then WholeSecond(t.startRead) else start
  }

  function IndexAfter(p: nat, n: nat, index: int, t: Tick): int
    requires p > 0
  {
    if Due(p, t) then NextIndex(index, n) else index
  }

  /** The start time and value index with which the loop is left after all turns. */
  function RunStart(p: nat, start: nat, ticks: seq<Tick>): nat
    requires p > 0
    decreases |ticks|
  {
    if ticks == [] then start else RunStart(p, StartAfter(p, start, ticks[0]), ticks[1..])
  }

  function RunIndex(p: nat, n: nat, index: int, ticks: seq<Tick>): int
    requires p > 0
    decreases |ticks|
  {
    if ticks == [] then index else RunIndex(p, n, IndexAfter(p, n, index, ticks[0]), ticks[1..])
  }

  lemma {:induction false} OneMoreTurn(p: nat, n: nat, start: nat, index: int, ticks: seq<Tick>, t: Tick)
    requires p > 0 && -1 <= index
    ensures -1 <= RunIndex(p, n, index, ticks)
    ensures RunStart(p, start, ticks + [t]) == StartAfter(p, RunStart(p, start, ticks), t)
    ensures RunIndex(p, n, index, ticks + [t]) == IndexAfter(p, n, RunIndex(p, n, index, ticks), t)
    ensures Reports(p, n, start, index, ticks + [t])
            == Reports(p, n, start, index, ticks)
               + (if Due(p, t) then [ReportOf(t, NextIndex(RunIndex(p, n, index, ticks), n),
                       RunStart(p, start, ticks))] else [])
    decreases |ticks|
  {
    if ticks == [] {
      assert (ticks + [t])[1..] == [];
    } else {
      assert (ticks + [t])[1..] == ticks[1..] + [t];
      OneMoreTurn(p, n, StartAfter(p, start, ticks[0]), IndexAfter(p, n, index, ticks[0]), ticks[1..], t);
    }
  }

  lemma OneMoreTick(p: nat, ticks: seq<Tick>, t: Tick)
    requires p > 0 && Monotone(p, ticks) && Ordered(t)
    requires ticks != [] ==>
               var last := ticks[|ticks|-1];
               last.cleaned + (if Due(p, last) then 1100 else 100) <= t.poll
    ensures Monotone(p, ticks + [t])
    ensures Paced(p, ticks) &&
            (ticks != [] ==> t.poll < PolledUntil(p, ticks[|ticks|-1]))
            ==> Paced(p, ticks + [t])
  {}

  ghost predicate ReportedAt(rs: seq<Report>, s: nat) {
    exists r :: r in rs && r.boundary == s
  }

  ghost predicate PolledIn(ticks: seq<Tick>, s: nat) {
    exists t :: t in ticks && Second(t.poll) == s
  }

  // ---------- at any pace ----------

  /** A second is reported exactly when it is a multiple of the period and the loop polls in it. */
  lemma {:induction false} ReportedIffPolled(p: nat, n: nat, start: nat, index: int, ticks: seq<Tick>, s: nat)
    requires p > 0 && -1 <= index
    ensures ReportedAt(Reports(p, n, start, index, ticks), s) <==> s % p == 0 && PolledIn(ticks, s)
    decreases |ticks|
  {
    if ticks != [] {
      var t := ticks[0];
      ReportedIffPolled(p, n, StartAfter(p, start, t), IndexAfter(p, n, index, t), ticks[1..], s);
      assert ticks == [t] + ticks[1..];
      if Due(p, t) {
        assert Reports(p, n, start, index, ticks)[0] in Reports(p, n, start, index, ticks);
      }
    }
  }

  /** Boundaries grow from each report to the next, and the intervals of the two do not overlap. */
  ghost predicate Chained(rs: seq<Report>) {
    forall j, k :: 0 <= j && k == j + 1 < |rs| ==> Follows(rs[j], rs[k])
  }

  ghost predicate Follows(r: Report, next: Report) {
    r.boundary < next.boundary && r.end <= next.start <= next.end && r.cleaned <= next.written
  }

  lemma ChainedCons(r: Report, rest: seq<Report>)
    requires Chained(rest) && (rest != [] ==> Follows(r, rest[0]))
    ensures Chained([r] + rest)
  {
  }

  lemma {:induction false} FirstReport(p: nat, n: nat, start: nat, index: int, ticks: seq<Tick>)
    requires p > 0 && -1 <= index && Monotone(p, ticks)
    ensures var rs := Reports(p, n, start, index, ticks);
            rs != [] ==> && rs[0].start == start && Second(ticks[0].poll) <= rs[0].boundary
                         && 1000 * rs[0].boundary <= rs[0].end <= rs[0].written
    decreases |ticks|
  {
    if ticks != [] {
      assert Ordered(ticks[0]);
      if !Due(p, ticks[0]) {
        Tail(p, ticks);
        FirstReport(p, n, start, index, ticks[1..]);
        assert |ticks| > 1 ==> ticks[0].poll <= ticks[1].poll;
      }
    }
  }

  lemma ReportFollows(p: nat, n: nat, start: nat, index: int, ticks: seq<Tick>)
    requires p > 0 && -1 <= index && |ticks| > 1 && Monotone(p, ticks) && Due(p, ticks[0])
    ensures var rest := Reports(p, n, StartAfter(p, start, ticks[0]), IndexAfter(p, n, index, ticks[0]), ticks[1..]);
            rest != [] ==> Follows(ReportOf(ticks[0], IndexAfter(p, n, index, ticks[0]), start), rest[0])
  {
    var t, next := ticks[0], ticks[1].poll;
    Tail(p, ticks);
    FirstReport(p, n, StartAfter(p, start, t), IndexAfter(p, n, index, t), ticks[1..]);
    assert Ordered(t) && t.cleaned + 1100 <= next;
    ASecondLater(t.poll, next);
    ASecondLater(t.cleaned, next);
    ASecondLater(t.startRead, next);
    RoundingIsMonotone(t.endRead, t.startRead);
  }

  lemma RoundingIsMonotone(x: nat, y: nat)
    requires x <= y
    ensures WholeSecond(x) <= WholeSecond(y) <= y
  {}

  lemma ASecondLater(x: nat, y: nat)
    requires x + 1000 <= y
    ensures x <= 1000 * Second(y) && Second(x) < Second(y)
  {}

  /** No boundary is reported twice, and no report overlaps the next one. */
  lemma {:induction false} NoBoundaryTwiceNoOverlap(p: nat, n: nat, start: nat, index: int, ticks: seq<Tick>)
    requires p > 0 && -1 <= index && Monotone(p, ticks)
    ensures Chained(Reports(p, n, start, index, ticks))
    decreases |ticks|
  {
    if ticks != [] {
      var start', index' := StartAfter(p, start, ticks[0]), IndexAfter(p, n, index, ticks[0]);
      Tail(p, ticks);
      NoBoundaryTwiceNoOverlap(p, n, start', index', ticks[1..]);
      if Due(p, ticks[0]) {
        if |ticks| > 1 { ReportFollows(p, n, start, index, ticks); }
        ChainedCons(ReportOf(ticks[0], index', start), Reports(p, n, start', index', ticks[1..]));
      }
    }
  }

  // ---------- at the pace the loop is built for ----------

  /** The first multiple of p at or after the second s. */
  function FirstBoundary(p: nat, s: nat): (b: nat)
    requires p > 0
    ensures s <= b < s + p
  {
    if s % p == 0 then s else s - s % p + p
  }

  lemma FirstBoundaryIsLeast(p: nat, s: nat)
    requires p > 0
    ensures FirstBoundary(p, s) % p == 0
    ensures forall m: nat :: m % p == 0 && s <= m ==> FirstBoundary(p, s) <= m
  {
    var b := FirstBoundary(p, s);
    if s % p != 0 {
      assert s - s % p == p * (s / p);
      Multiples.Product(p, s / p);
      Multiples.Shift(p, s - s % p, 1);
    }
    forall m: nat | m % p == 0 && s <= m
      ensures b <= m
    {
      if m < b {
        Multiples.Spacing(p, m, b);
      }
    }
  }

  lemma NextFirstBoundary(p: nat, s: nat, s': nat)
    requires p > 0 && s <= s' <= FirstBoundary(p, if s % p == 0 then s + 1 else s)
    requires s % p == 0 ==> s < s'
    ensures FirstBoundary(p, s') == if s % p == 0 then s + p else FirstBoundary(p, s)
  {
    var b := if s % p == 0 then s + p else FirstBoundary(p, s);
    FirstBoundaryIsLeast(p, s);
    FirstBoundaryIsLeast(p, s');
    FirstBoundaryIsLeast(p, s + 1);
    if s % p == 0 {
      Multiples.Shift(p, s, 1);
      Multiples.Spacing(p, s, FirstBoundary(p, s'));
    }
  }

  lemma NextIndexIsModular(index: int, n: nat, k: nat)
    requires 0 < n && -1 <= index < n
    ensures 0 <= NextIndex(index, n) < n
    ensures (NextIndex(index, n) + k) % n == (index + 1 + k) % n
  {
    if index + 1 == n {
      assert (n + k) % n == k % n by {
        var q := k / n;
        assert n + k == n * (q + 1) + k % n;
        Multiples.DivModUnique(n + k, n, q + 1, k % n);
      }
    }
  }

  /** The value sets are shown in turn, starting behind the given index. */
  ghost predicate Cyclic(n: nat, index: int, rs: seq<Report>)
    requires n > 0 && -1 <= index
  {
    forall k :: 0 <= k < |rs| ==> rs[k].valueIndex == (index + 1 + k) % n
  }

  lemma CyclicCons(n: nat, index: int, r: Report, rest: seq<Report>)
    requires 0 < n && -1 <= index < n
    requires r.valueIndex == NextIndex(index, n) && Cyclic(n, NextIndex(index, n), rest)
    ensures Cyclic(n, index, [r] + rest)
  {
    var rs := [r] + rest;
    forall k | 0 <= k < |rs|
      ensures rs[k].valueIndex == (index + 1 + k) % n
    {
      NextIndexIsModular(index, n, k);
      NextIndexIsModular(index, n, 0);
    }
  }

  /** Whatever the pace, the k-th report shows value set k modulo the number of value sets. */
  lemma {:induction false} ReportsCycle(p: nat, n: nat, start: nat, index: int, ticks: seq<Tick>)
    requires p > 0 && 0 < n && -1 <= index < n
    ensures Cyclic(n, index, Reports(p, n, start, index, ticks))
    decreases |ticks|
  {
    if ticks != [] {
      var t := ticks[0];
      var start', index' := StartAfter(p, start, t), IndexAfter(p, n, index, t);
      NextIndexIsModular(index, n, 0);
      ReportsCycle(p, n, start', index', ticks[1..]);
      if Due(p, t) {
        CyclicCons(n, index, ReportOf(t, index', start), Reports(p, n, start', index', ticks[1..]));
      }
    }
  }

  lemma FirstTurn(p: nat, n: nat, start: nat, index: int, ticks: seq<Tick>)
    requires p > 0 && -1 <= index && ticks != []
    ensures var (t, rest) := (ticks[0], ticks[1..]);
            && RunIndex(p, n, index, ticks) == RunIndex(p, n, IndexAfter(p, n, index, t), rest)
            && |Reports(p, n, start, index, ticks)|
               == (if Due(p, t) then 1 else 0)
                 + |Reports(p, n, StartAfter(p, start, t), IndexAfter(p, n, index, t), rest)|
  {
  }

  /** The index with which a run goes on counts its reports. */
  lemma {:induction false} IndexCounts(p: nat, n: nat, start: nat, index: int, ticks: seq<Tick>)
    requires p > 0 && 0 < n && -1 <= index < n
    ensures -1 <= RunIndex(p, n, index, ticks) < n
    ensures NextIndex(RunIndex(p, n, index, ticks), n) == (index + 1 + |Reports(p, n, start, index, ticks)|) % n
    decreases |ticks|
  {
    NextIndexIsModular(index, n, 0);
    if ticks != [] {
      hide Reports, RunIndex, NextIndex, Due;
      var t := ticks[0];
      var start', index' := StartAfter(p, start, t), IndexAfter(p, n, index, t);
      FirstTurn(p, n, start, index, ticks);
      IndexCounts(p, n, start', index', ticks[1..]);
      NextIndexIsModular(index, n, 1 + |Reports(p, n, start', index', ticks[1..])|);
    }
  }

  /** Reports at b, b + p, b + 2p, ... */
  ghost predicate OnePeriodApart(p: nat, b: nat, rs: seq<Report>) {
    forall k :: 0 <= k < |rs| ==> rs[k].boundary == b + k * p
  }

  lemma OnePeriodApartCons(p: nat, b: nat, r: Report, rest: seq<Report>)
    requires r.boundary == b && OnePeriodApart(p, b + p, rest)
    ensures OnePeriodApart(p, b, [r] + rest)
  {
    var rs := [r] + rest;
    forall k | 0 <= k < |rs|
      ensures rs[k].boundary == b + k * p
    {
      if k > 0 {
        assert rs[k] == rest[k-1];
        assert (k - 1) * p + p == k * p;
      }
    }
  }

  /** Reports at b, b + p, b + 2p, ... that walk cyclically through n value sets. */
  ghost predicate InStep(p: nat, n: nat, b: nat, index: int, rs: seq<Report>)
    requires n > 0 && -1 <= index
  {
    OnePeriodApart(p, b, rs) && Cyclic(n, index, rs)
  }

  /** One paced turn moves the first boundary still to come past the turn's own boundary, and no further. */
  lemma FirstBoundaryAfterTurn(p: nat, ticks: seq<Tick>)
    requires p > 0 && |ticks| > 1 && Paced(p, ticks)
    ensures var b := FirstBoundary(p, Second(ticks[0].poll));
            FirstBoundary(p, Second(ticks[1].poll)) == if Due(p, ticks[0]) then b + p else b
  {
    var s, s' := Second(ticks[0].poll), Second(ticks[1].poll);
    assert ticks[0].poll <= ticks[0].cleaned;
    FirstBoundaryIsLeast(p, s + 1);
    if Due(p, ticks[0]) {
      assert s < s' <= s + p;
      Multiples.Spacing(p, s, FirstBoundary(p, s + 1));
    } else {
      assert s <= s' <= s + 1;
    }
    NextFirstBoundary(p, s, s');
  }

  /**
   The reports are in step from boundary b on, and the last second polled lies behind the last of them and before
   the next.
   */
  ghost predicate InStepUntil(p: nat, n: nat, b: nat, index: int, rs: seq<Report>, last: nat)
    requires n > 0 && -1 <= index
  {
    InStep(p, n, b, index, rs) && b + |rs| * p - p <= last < b + |rs| * p
  }

  lemma DueTurnInStep(p: nat, n: nat, index: int, r: Report, rest: seq<Report>, last: nat)
    requires 0 < n && -1 <= index < n
    requires r.valueIndex == NextIndex(index, n)
    requires InStepUntil(p, n, r.boundary + p, NextIndex(index, n), rest, last)
    ensures InStepUntil(p, n, r.boundary, index, [r] + rest, last)
  {
    OnePeriodApartCons(p, r.boundary, r, rest);
    CyclicCons(n, index, r, rest);
    assert (|rest| + 1) * p == |rest| * p + p;
  }

  lemma OneTurnInStep(p: nat, n: nat, start: nat, index: int, t: Tick)
    requires p > 0 && 0 < n && -1 <= index < n
    ensures InStepUntil(p, n, FirstBoundary(p, Second(t.poll)), index, Reports(p, n, start, index, [t]), Second(t.poll))
  {
  }

  /**
   Paced runs report the boundaries b, b + p, b + 2p, ... with none missed and none doubled, from the
   first boundary at or after the first poll up to the last one at or before the last poll, and the
   k-th report shows value set k modulo the number of value sets.
   */
  lemma {:induction false} EveryBoundaryExactlyOnce(p: nat, n: nat, start: nat, index: int, ticks: seq<Tick>)
    requires p > 0 && 0 < n && -1 <= index < n && ticks != [] && Paced(p, ticks)
    ensures InStepUntil(p, n, FirstBoundary(p, Second(ticks[0].poll)), index, Reports(p, n, start, index, ticks),
              Second(ticks[|ticks|-1].poll))
    decreases |ticks|
  {
    var t := ticks[0];
    if |ticks| == 1 {
      assert ticks == [t];
      OneTurnInStep(p, n, start, index, t);
    } else {
      var index' := IndexAfter(p, n, index, t);
      var rest := Reports(p, n, StartAfter(p, start, t), index', ticks[1..]);
      NextIndexIsModular(index, n, 0);
      Tail(p, ticks);
      EveryBoundaryExactlyOnce(p, n, StartAfter(p, start, t), index', ticks[1..]);
      FirstBoundaryAfterTurn(p, ticks);
      var last := Second(ticks[|ticks|-1].poll);
      assert ticks[1..][|ticks|-2] == ticks[|ticks|-1];
      if Due(p, t) {
        DueTurnInStep(p, n, index, ReportOf(t, index', start), rest, last);
      }
    }
  }

  /** Until when a paced loop has surely polled again: not before, and with the next poll at the latest. */
  function PolledUntil(p: nat, last: Tick): nat
    requires p > 0
  {
    last.poll + (if Due(p, last) then 1000 * p else 1000)
  }

  lemma NextTurnIsInTime(p: nat, t: Tick, b: nat)
    requires p > 0 && b % p == 0 && Second(t.poll) < b
    ensures PolledUntil(p, t) < 1000 * (b + 1)
    ensures forall next: nat :: next < PolledUntil(p, t) ==> Second(next) <= b
  {
    if Due(p, t) {
      Multiples.Spacing(p, Second(t.poll), b);
    }
  }

  lemma {:induction false} BoundariesArePolled(p: nat, ticks: seq<Tick>, b: nat)
    requires p > 0 && ticks != [] && Paced(p, ticks) && b % p == 0
    requires Second(ticks[0].poll) <= b && 1000 * (b + 1) <= PolledUntil(p, ticks[|ticks|-1])
    ensures PolledIn(ticks, b)
    decreases |ticks|
  {
    if Second(ticks[0].poll) == b {
      assert ticks[0] in ticks;
    } else {
      NextTurnIsInTime(p, ticks[0], b);
      Tail(p, ticks);
      BoundariesArePolled(p, ticks[1..], b);
      assert forall t :: t in ticks[1..] ==> t in ticks;
    }
  }

  /** So every boundary whose second is over by then has its report. */
  lemma BoundariesAreReported(p: nat, n: nat, start: nat, index: int, ticks: seq<Tick>, b: nat)
    requires p > 0 && -1 <= index && ticks != [] && Paced(p, ticks) && b % p == 0
    requires Second(ticks[0].poll) <= b && 1000 * (b + 1) <= PolledUntil(p, ticks[|ticks|-1])
    ensures ReportedAt(Reports(p, n, start, index, ticks), b)
  {
    BoundariesArePolled(p, ticks, b);
    ReportedIffPolled(p, n, start, index, ticks, b);
  }

  /** total_seconds() of the covered interval is below log_period */
  predicate Suspect(p: nat, r: Report) {
    r.end - r.start < 1000 * p
  }

  ghost predicate OnBoundary(rs: seq<Report>) {
    forall r :: r in rs ==> r.end == 1000 * r.boundary
  }

  /** Each report starts where the one before it ended. */
  ghost predicate Tiled(rs: seq<Report>) {
    forall j, k :: 0 <= j < |rs| && k == j + 1 < |rs| ==> rs[k].start == rs[j].end
  }

  lemma TiledCons(r: Report, rest: seq<Report>)
    requires Tiled(rest) && (rest != [] ==> rest[0].start == r.end)
    ensures Tiled([r] + rest)
  {
  }

  /** A prompt turn starts the next report in the very second in which it ends its own. */
  lemma PromptTurn(p: nat, ticks: seq<Tick>)
    requires p > 0 && ticks != [] && Monotone(p, ticks) && Prompt(p, ticks) && Due(p, ticks[0])
    ensures WholeSecond(ticks[0].endRead) == WholeSecond(ticks[0].startRead) == 1000 * Second(ticks[0].poll)
  {
    assert Ordered(ticks[0]);
  }

  lemma {:induction false} PromptReportsEndOnTheirBoundary(p: nat, n: nat, start: nat, index: int, ticks: seq<Tick>)
    requires p > 0 && -1 <= index && Monotone(p, ticks) && Prompt(p, ticks)
    ensures OnBoundary(Reports(p, n, start, index, ticks))
    decreases |ticks|
  {
    if ticks != [] {
      var t := ticks[0];
      var start', index' := StartAfter(p, start, t), IndexAfter(p, n, index, t);
      var rest := Reports(p, n, start', index', ticks[1..]);
      Tail(p, ticks);
      PromptReportsEndOnTheirBoundary(p, n, start', index', ticks[1..]);
      if Due(p, t) {
        PromptTurn(p, ticks);
        assert Reports(p, n, start, index, ticks) == [ReportOf(t, index', start)] + rest;
      }
    }
  }

  lemma {:induction false} PromptReportsMeet(p: nat, n: nat, start: nat, index: int, ticks: seq<Tick>)
    requires p > 0 && -1 <= index && Monotone(p, ticks) && Prompt(p, ticks)
    ensures var rs := Reports(p, n, start, index, ticks);
            Tiled(rs) && (rs != [] ==> rs[0].start == start)
    decreases |ticks|
  {
    if ticks != [] {
      var t := ticks[0];
      var start', index' := StartAfter(p, start, t), IndexAfter(p, n, index, t);
      var rest := Reports(p, n, start', index', ticks[1..]);
      Tail(p, ticks);
      PromptReportsMeet(p, n, start', index', ticks[1..]);
      if Due(p, t) {
        PromptTurn(p, ticks);
        TiledCons(ReportOf(t, index', start), rest);
      }
    }
  }

  lemma BoundariesOnePeriodApart(p: nat, n: nat, start: nat, index: int, ticks: seq<Tick>, j: nat)
    requires p > 0 && 0 < n && -1 <= index < n && ticks != [] && Paced(p, ticks)
    requires j + 1 < |Reports(p, n, start, index, ticks)|
    ensures var rs := Reports(p, n, start, index, ticks);
            rs[j + 1].boundary == rs[j].boundary + p
  {
    EveryBoundaryExactlyOnce(p, n, start, index, ticks);
    assert (j + 1) * p == j * p + p;
  }

  /**
   When, in addition, every due turn reads its clock within its own second, all reports but the first
   cover exactly one period, start where the previous one ended, and are not suspect.
   */
  lemma PromptReportsTileTime(p: nat, n: nat, start: nat, index: int, ticks: seq<Tick>)
    requires p > 0 && 0 < n && -1 <= index < n && Paced(p, ticks) && Prompt(p, ticks)
    ensures var rs := Reports(p, n, start, index, ticks);
            && Tiled(rs) && OnBoundary(rs)
            && forall k :: 0 < k < |rs| ==> rs[k].end - rs[k].start == 1000 * p && !Suspect(p, rs[k])
  {
    if ticks != [] {
      PromptReportsEndOnTheirBoundary(p, n, start, index, ticks);
      PromptReportsMeet(p, n, start, index, ticks);
      var rs := Reports(p, n, start, index, ticks);
      forall k | 0 < k < |rs|
        ensures rs[k].end - rs[k].start == 1000 * p && !Suspect(p, rs[k])
      {
        BoundariesOnePeriodApart(p, n, start, index, ticks, k - 1);
        assert rs[k].start == rs[k-1].end;
        assert rs[k] in rs && rs[k-1] in rs;
      }
    }
  }

  /**
   The very first start time keeps its fraction of a second, so the first report of a run ends before it
   starts exactly when the thread was started inside, but not at the very start of, a second that is a
   boundary, and the end is read in that same second.
   */
  lemma FirstReportInverted(p: nat, n: nat, start: nat, ticks: seq<Tick>)
    requires p > 0 && ticks != [] && Monotone(p, ticks) && start <= ticks[0].poll
    ensures var rs := Reports(p, n, start, -1, ticks);
            rs != [] ==>
              (rs[0].end < rs[0].start <==>
                Second(start) % p == 0 && Second(ticks[0].endRead) == Second(start) && start % 1000 != 0)
  {
    var rs, t := Reports(p, n, start, -1, ticks), ticks[0];
    assert Ordered(t);
    assert Due(p, t) ==> rs[0] == ReportOf(t, NextIndex(-1, n), start);
    hide Reports, Monotone, WholeSecond;
    WholeSecondBefore(start, t.endRead);
    WholeSecondBefore(start, t.poll);
    WholeSecondBefore(t.poll, t.endRead);
    if rs != [] {
      FirstReport(p, n, start, -1, ticks);
      if !Due(p, t) {
        LaterBoundary(p, n, start, -1, ticks, Second(t.poll));
        WholeSecondBefore(start, rs[0].end);
      }
    }
  }

  lemma WholeSecondBefore(x: nat, y: nat)
    ensures x <= y ==> (WholeSecond(y) < x <==> Second(y) == Second(x) && x % 1000 != 0)
    ensures x <= y ==> Second(x) <= Second(y)
  {
  }

  /** When nothing is due in second s, the first report of a run from then on has a later boundary. */
  lemma {:induction false} LaterBoundary(p: nat, n: nat, start: nat, index: int, ticks: seq<Tick>, s: nat)
    requires p > 0 && -1 <= index && Monotone(p, ticks) && s % p != 0 && (ticks != [] ==> s <= Second(ticks[0].poll))
    ensures var rs := Reports(p, n, start, index, ticks); rs != [] ==> s < rs[0].boundary
    decreases |ticks|
  {
    if ticks != [] && !Due(p, ticks[0]) {
      Tail(p, ticks);
      assert Ordered(ticks[0]) && (|ticks| > 1 ==> ticks[0].poll <= ticks[1].poll);
      LaterBoundary(p, n, start, index, ticks[1..], s);
    }
  }

  lemma {:induction false} SleepsAddUp(ticks: seq<Tick>, k: nat)
    requires Monotone(1, ticks) && k < |ticks|
    ensures ticks[0].poll + 1100 * k <= ticks[k].poll
  {
    if k > 0 {
      SleepsAddUp(ticks, k - 1);
      assert Ordered(ticks[k-1]) && Due(1, ticks[k-1]);
    }
  }

  lemma {:induction false} EveryTurnReports(n: nat, start: nat, index: int, ticks: seq<Tick>)
    requires -1 <= index
    ensures var rs := Reports(1, n, start, index, ticks);
            |rs| == |ticks| && forall k :: 0 <= k < |rs| ==> rs[k].boundary == Second(ticks[k].poll)
    decreases |ticks|
  {
    if ticks != [] {
      EveryTurnReports(n, StartAfter(1, start, ticks[0]), IndexAfter(1, n, index, ticks[0]), ticks[1..]);
    }
  }

  /**
   A log period of one second cannot be kept at any pace: the two sleeps alone take 1.1 s, so by the
   eleventh report at least one boundary has been missed.
   */
  lemma OneSecondPeriodMissesBoundaries(n: nat, start: nat, index: int, ticks: seq<Tick>)
    requires -1 <= index && |ticks| >= 11 && Monotone(1, ticks)
    ensures !Paced(1, ticks)
    ensures var rs := Reports(1, n, start, index, ticks);
            |rs| >= 11 && rs[10].boundary > rs[0].boundary + 10
  {
    EveryTurnReports(n, start, index, ticks);
    SleepsAddUp(ticks, 1);
    SleepsAddUp(ticks, 10);
    assert Due(1, ticks[0]);
  }

  // ---------- a run that keeps every boundary ----------

  /** A turn in which the clock stands still. */
  function InstantTick(t: nat): Tick {
    Tick(t, t, t, t, t)
  }

  /** Polls at every boundary from the k0-th on, and a tenth of a second before the next. */
  function SteadyPoll(p: nat, k0: nat, i: nat): nat
    requires p > 0
  {
    if i % 2 == 0 then 1000 * ((k0 + i / 2) * p)
    else
      Multiples.Monotone(p, 1, k0 + i / 2 + 1);
      1000 * ((k0 + i / 2 + 1) * p) - 100
  }

  function Steady(p: nat, k0: nat, len: nat): (ticks: seq<Tick>)
    requires p > 0
    ensures |ticks| == len && forall i :: 0 <= i < len ==> ticks[i] == InstantTick(SteadyPoll(p, k0, i))
  {
    seq(len, i requires 0 <= i => InstantTick(SteadyPoll(p, k0, i)))
  }

  lemma SteadyDue(p: nat, k0: nat, i: nat)
    requires p >= 2
    ensures Due(p, InstantTick(SteadyPoll(p, k0, i))) <==> i % 2 == 0
  {
    var k := k0 + i / 2;
    if i % 2 == 0 {
      Multiples.Product(p, k);
      assert Second(SteadyPoll(p, k0, i)) == k * p == p * k;
    } else {
      assert Second(SteadyPoll(p, k0, i)) == (k + 1) * p - 1;
      assert (k + 1) * p - 1 == p * k + (p - 1);
      Multiples.DivModUnique((k + 1) * p - 1, p, k, p - 1);
    }
  }

  lemma SteadyGap(p: nat, k0: nat, i: nat)
    requires p >= 2
    ensures SteadyPoll(p, k0, i + 1) - SteadyPoll(p, k0, i) == if i % 2 == 0 then 1000 * p - 100 else 100
  {
    if i % 2 == 0 {
      assert (i + 1) / 2 == i / 2;
      assert (k0 + i / 2 + 1) * p == (k0 + i / 2) * p + p;
    } else {
      assert (i + 1) / 2 == i / 2 + 1;
    }
  }

  lemma SteadyIsPaced(p: nat, k0: nat, len: nat)
    requires p >= 2
    ensures Paced(p, Steady(p, k0, len)) && Prompt(p, Steady(p, k0, len))
  {
    var ticks := Steady(p, k0, len);
    forall i | 0 < i < len
      ensures ticks[i-1].cleaned + (if Due(p, ticks[i-1]) then 1100 else 100) <= ticks[i].poll
      ensures ticks[i].poll < ticks[i-1].poll + (if Due(p, ticks[i-1]) then 1000 * p else 1000)
    {
      SteadyDue(p, k0, i - 1);
      SteadyGap(p, k0, i - 1);
    }
  }

  /** After a report the next turn comes at least 1.1 s and less than one period later. */
  lemma PaceNeedsTwoSeconds(p: nat, ticks: seq<Tick>)
    requires p > 0 && |ticks| > 1 && Due(p, ticks[0]) && Paced(p, ticks)
    ensures p >= 2
  {
    assert Ordered(ticks[0]) && ticks[0].cleaned + 1100 <= ticks[1].poll < ticks[0].poll + 1000 * p;
  }

  /** Some run of at least this many turns keeps the pace. */
  ghost predicate CanKeep(p: nat, len: nat)
    requires p > 0
  {
    exists ticks :: |ticks| >= len && Paced(p, ticks)
  }

  /** The pace can be kept up for ever exactly when the period is two seconds or more. */
  lemma PaceCanBeKeptIff(p: nat)
    requires p > 0
    ensures (forall len: nat :: CanKeep(p, len)) <==> p >= 2
  {
    if p >= 2 {
      forall len: nat
        ensures CanKeep(p, len)
      {
        SteadyIsPaced(p, 0, len);
        assert |Steady(p, 0, len)| >= len;
      }
    } else {
      forall ticks | |ticks| >= 2 && Paced(p, ticks)
        ensures false
      {
        PaceNeedsTwoSeconds(p, ticks);
      }
      assert !CanKeep(p, 2);
    }
  }
}
