/** The report files in the data directory: their names, and what the cleanup after each report leaves. */
module PmRetention {
  import Multiples
  import opened PmScheduler

  /**
   The file name shows the calendar minute of the start, and only the hour and minute of the end.
   Both are rendered injectively by strftime, so the name is represented by the two numbers.
   */
  datatype FileName = FileName(startMinute: nat, endMinuteOfDay: nat)

  function NameFor(start: nat, end: nat): FileName {
    FileName(start / 60_000, end / 60_000 % 1440)
  }

  function Name(r: Report): FileName {
    NameFor(r.start, r.end)
  }

  /** The argument of find -mmin, in minutes. */
  function MaxAgeMinutes(repetitionPeriod: nat): nat {
    repetitionPeriod / 60
  }

  /** find -mmin +n deletes what is older than n minutes. */
  function Cleanup(dir: seq<Report>, now: nat, minutes: nat): seq<Report> {
    if dir == [] then []
    else if now - dir[0].written > 60_000 * minutes then Cleanup(dir[1..], now, minutes)
    else [dir[0]] + Cleanup(dir[1..], now, minutes)
  }

  function Without(dir: seq<Report>, name: FileName): seq<Report> {
    if dir == [] then []
    else if Name(dir[0]) == name then Without(dir[1..], name)
    else [dir[0]] + Without(dir[1..], name)
  }

  /** The directory after a run of reports: each one overwrites a file of its own name, then cleans up. */
  function Directory(rs: seq<Report>, minutes: nat): seq<Report> {
    if rs == [] then []
    else
      var last := rs[|rs|-1];
      Cleanup(Without(Directory(rs[..|rs|-1], minutes), Name(last)) + [last], last.cleaned, minutes)
  }

  // ---------- how many files there can be ----------

  /** Boundaries grow from report to report and are multiples of the period. */
  ghost predicate Spaced(p: nat, rs: seq<Report>)
    requires p > 0
  {
    && (forall r :: r in rs ==> r.boundary % p == 0)
    && (forall i, j :: 0 <= i < j < |rs| ==> rs[i].boundary < rs[j].boundary)
  }

  /** Every file is written within the second its report is due in, and cleanup runs after that. */
  ghost predicate WrittenOnTime(rs: seq<Report>) {
    forall r :: r in rs ==> Second(r.written) == r.boundary && r.written <= r.cleaned
  }

  lemma SpacedTail(p: nat, rs: seq<Report>)
    requires p > 0 && rs != [] && Spaced(p, rs)
    ensures Spaced(p, rs[1..]) && forall r :: r in rs[1..] ==> rs[0].boundary < r.boundary
  {
    assert forall r :: r in rs[1..] ==> r in rs;
  }

  lemma SpacedCons(p: nat, r: Report, rest: seq<Report>)
    requires p > 0 && Spaced(p, rest) && r.boundary % p == 0 && forall x :: x in rest ==> r.boundary < x.boundary
    ensures Spaced(p, [r] + rest)
  {
    assert forall i :: 0 <= i < |rest| ==> rest[i] in rest;
  }

  lemma {:induction false} CleanupKeeps(dir: seq<Report>, now: nat, minutes: nat, r: Report)
    ensures r in Cleanup(dir, now, minutes) <==> r in dir && now - r.written <= 60_000 * minutes
  {
    if dir != [] {
      CleanupKeeps(dir[1..], now, minutes, r);
      assert r in dir <==> r == dir[0] || r in dir[1..];
    }
  }

  lemma {:induction false} CleanupKeepsSpacing(dir: seq<Report>, now: nat, minutes: nat, p: nat)
    requires p > 0 && Spaced(p, dir)
    ensures Spaced(p, Cleanup(dir, now, minutes))
  {
    if dir != [] {
      SpacedTail(p, dir);
      CleanupKeepsSpacing(dir[1..], now, minutes, p);
      forall x | x in Cleanup(dir[1..], now, minutes)
        ensures x in dir[1..]
      {
        CleanupKeeps(dir[1..], now, minutes, x);
      }
      assert dir[0] in dir;
      SpacedCons(p, dir[0], Cleanup(dir[1..], now, minutes));
    }
  }

  lemma {:induction false} WithoutKeeps(dir: seq<Report>, name: FileName, r: Report)
    ensures r in Without(dir, name) <==> r in dir && Name(r) != name
  {
    if dir != [] {
      WithoutKeeps(dir[1..], name, r);
      assert r in dir <==> r == dir[0] || r in dir[1..];
    }
  }

  lemma {:induction false} WithoutKeepsSpacing(dir: seq<Report>, name: FileName, p: nat)
    requires p > 0 && Spaced(p, dir)
    ensures Spaced(p, Without(dir, name))
  {
    if dir != [] {
      SpacedTail(p, dir);
      WithoutKeepsSpacing(dir[1..], name, p);
      forall x | x in Without(dir[1..], name)
        ensures x in dir[1..]
      {
        WithoutKeeps(dir[1..], name, x);
      }
      assert dir[0] in dir;
      SpacedCons(p, dir[0], Without(dir[1..], name));
    }
  }

  lemma {:induction false} SpacedTakeRoom(p: nat, rs: seq<Report>)
    requires p > 0 && rs != [] && Spaced(p, rs)
    ensures rs[0].boundary + (|rs| - 1) * p <= rs[|rs|-1].boundary
  {
    if |rs| > 1 {
      SpacedTakeRoom(p, rs[1..]);
      Multiples.Spacing(p, rs[0].boundary, rs[1].boundary);
      assert (|rs| - 1) * p == (|rs| - 2) * p + p;
    }
  }

  lemma ButLast(p: nat, rs: seq<Report>)
    requires p > 0 && rs != [] && Spaced(p, rs) && WrittenOnTime(rs)
    ensures Spaced(p, rs[..|rs|-1]) && WrittenOnTime(rs[..|rs|-1])
  {
    assert forall r :: r in rs[..|rs|-1] ==> r in rs;
  }

  /** What the directory holds: some of the reports written so far, the latest one among them, none too old. */
  lemma {:induction false} DirectoryHoldsRecentReports(p: nat, rs: seq<Report>, minutes: nat)
    requires p > 0 && Spaced(p, rs) && WrittenOnTime(rs)
    ensures var dir := Directory(rs, minutes);
            && Spaced(p, dir)
            && (forall r :: r in dir ==> r in rs && rs[|rs|-1].cleaned - r.written <= 60_000 * minutes)
    decreases |rs|
  {
    if rs != [] {
      var last, before := rs[|rs|-1], Directory(rs[..|rs|-1], minutes);
      ButLast(p, rs);
      DirectoryHoldsRecentReports(p, rs[..|rs|-1], minutes);
      WithoutKeepsSpacing(before, Name(last), p);
      forall x | x in Without(before, Name(last))
        ensures x in rs[..|rs|-1] && x in rs && x.boundary < last.boundary
      {
        WithoutKeeps(before, Name(last), x);
        var i :| 0 <= i < |rs| - 1 && rs[..|rs|-1][i] == x;
        assert rs[i] == x;
      }
      assert last in rs;
      SpacedSnoc(p, Without(before, Name(last)), last);
      var dir := Without(before, Name(last)) + [last];
      CleanupKeepsSpacing(dir, last.cleaned, minutes, p);
      forall x | x in Cleanup(dir, last.cleaned, minutes)
        ensures x in rs && last.cleaned - x.written <= 60_000 * minutes
      {
        CleanupKeeps(dir, last.cleaned, minutes, x);
      }
    }
  }

  lemma SpacedSnoc(p: nat, rest: seq<Report>, r: Report)
    requires p > 0 && Spaced(p, rest) && r.boundary % p == 0 && forall x :: x in rest ==> x.boundary < r.boundary
    ensures Spaced(p, rest + [r])
  {
    assert forall i :: 0 <= i < |rest| ==> rest[i] in rest;
  }

  /**
   However long the loop runs, at most repetition_period / log_period + 1 report files survive a cleanup.
   */
  lemma BoundedRetention(p: nat, repetitionPeriod: nat, rs: seq<Report>)
    requires p > 0 && Spaced(p, rs) && WrittenOnTime(rs)
    ensures |Directory(rs, MaxAgeMinutes(repetitionPeriod))| <= repetitionPeriod / p + 1
  {
    var minutes := MaxAgeMinutes(repetitionPeriod);
    var dir := Directory(rs, minutes);
    DirectoryHoldsRecentReports(p, rs, minutes);
    if |dir| > 1 {
      SpacedTakeRoom(p, dir);
      var first, last := dir[0], dir[|dir|-1];
      assert first in dir && last in dir;
      NotAfterLast(p, rs, last);
      assert first in rs;
      AgeBound(first.written, rs[|rs|-1].cleaned, repetitionPeriod, last.boundary);
      QuotientBound(p, |dir| - 1, repetitionPeriod);
    }
  }

  /** A file that survives a cleanup is at most the repetition period older than anything due before the cleanup. */
  lemma AgeBound(written: nat, cleaned: nat, repetitionPeriod: nat, due: nat)
    requires cleaned - written <= 60_000 * MaxAgeMinutes(repetitionPeriod) && due <= Second(cleaned)
    ensures due <= Second(written) + repetitionPeriod
  {
  }

  lemma NotAfterLast(p: nat, rs: seq<Report>, r: Report)
    requires p > 0 && Spaced(p, rs) && WrittenOnTime(rs) && r in rs
    ensures r.boundary <= rs[|rs|-1].boundary <= Second(rs[|rs|-1].cleaned)
  {
    var i :| 0 <= i < |rs| && rs[i] == r;
    assert rs[|rs|-1] in rs;
  }

  lemma QuotientBound(p: nat, k: nat, x: nat)
    requires p > 0 && k * p <= x
    ensures k <= x / p
  {
    if x / p < k {
      Multiples.Monotone(p, x / p + 1, k);
    }
  }

  lemma {:induction false} RunsAreSpaced(p: nat, rs: seq<Report>)
    requires p > 0 && Chained(rs) && forall r :: r in rs ==> r.boundary % p == 0
    ensures Spaced(p, rs)
  {
    forall i, j | 0 <= i < j < |rs|
      ensures rs[i].boundary < rs[j].boundary
    {
      ChainedBoundaries(rs, i, j);
    }
  }

  lemma {:induction false} ChainedBoundaries(rs: seq<Report>, i: nat, j: nat)
    requires Chained(rs) && i < j < |rs|
    ensures rs[i].boundary < rs[j].boundary
    decreases j
  {
    assert Follows(rs[j-1], rs[j]);
    if i < j - 1 {
      ChainedBoundaries(rs, i, j - 1);
    }
  }

  /** A due turn writes its file within the second of its boundary. */
  ghost predicate FilesOnTime(p: nat, ticks: seq<Tick>)
    requires p > 0
  {
    forall t :: t in ticks && Due(p, t) ==> Second(t.written) == Second(t.poll)
  }

  lemma {:induction false} ReportsOnTime(p: nat, n: nat, start: nat, index: int, ticks: seq<Tick>)
    requires p > 0 && -1 <= index && Monotone(p, ticks) && FilesOnTime(p, ticks)
    ensures var rs := Reports(p, n, start, index, ticks);
            WrittenOnTime(rs) && forall r :: r in rs ==> r.boundary % p == 0
    decreases |ticks|
  {
    if ticks != [] {
      var t := ticks[0];
      Tail(p, ticks);
      assert Ordered(t) && t in ticks;
      assert forall u :: u in ticks[1..] ==> u in ticks;
      ReportsOnTime(p, n, StartAfter(p, start, t), IndexAfter(p, n, index, t), ticks[1..]);
    }
  }

  /** The retention bound over every run of the polling loop, at any pace. */
  lemma BoundedRetentionOverEveryRun(p: nat, repetitionPeriod: nat, n: nat, start: nat, index: int, ticks: seq<Tick>)
    requires p > 0 && -1 <= index && Monotone(p, ticks) && FilesOnTime(p, ticks)
    ensures |Directory(Reports(p, n, start, index, ticks), MaxAgeMinutes(repetitionPeriod))| <= repetitionPeriod / p + 1
  {
    var rs := Reports(p, n, start, index, ticks);
    NoBoundaryTwiceNoOverlap(p, n, start, index, ticks);
    ReportsOnTime(p, n, start, index, ticks);
    RunsAreSpaced(p, rs);
    BoundedRetention(p, repetitionPeriod, rs);
  }

  // ---------- which files those are ----------

  ghost predicate DistinctNames(rs: seq<Report>) {
    forall i, j :: 0 <= i < j < |rs| ==> Name(rs[i]) != Name(rs[j])
  }

  lemma {:induction false} CleanupAppend(a: seq<Report>, b: seq<Report>, now: nat, minutes: nat)
    ensures Cleanup(a + b, now, minutes) == Cleanup(a, now, minutes) + Cleanup(b, now, minutes)
  {
    if a == [] {
      assert a + b == b;
    } else {
      assert (a + b)[1..] == a[1..] + b;
      CleanupAppend(a[1..], b, now, minutes);
    }
  }

  lemma {:induction false} CleanupTwice(dir: seq<Report>, now: nat, later: nat, minutes: nat)
    requires now <= later
    ensures Cleanup(Cleanup(dir, now, minutes), later, minutes) == Cleanup(dir, later, minutes)
  {
    if dir != [] {
      CleanupTwice(dir[1..], now, later, minutes);
      if now - dir[0].written <= 60_000 * minutes {
        var kept := Cleanup(dir[1..], now, minutes);
        assert ([dir[0]] + kept)[1..] == kept;
      }
    }
  }

  lemma {:induction false} WithoutUnusedName(dir: seq<Report>, name: FileName)
    requires forall r :: r in dir ==> Name(r) != name
    ensures Without(dir, name) == dir
  {
    if dir != [] {
      assert dir[0] in dir && forall r :: r in dir[1..] ==> r in dir;
      WithoutUnusedName(dir[1..], name);
      assert dir == [dir[0]] + dir[1..];
    }
  }

  /**
   As long as no two reports share a file name, cleaning up after every report leaves what a single
   cleanup of all files ever written would leave: no file is lost before its time.
   */
  lemma {:induction false} NothingLostBeforeItsTime(p: nat, rs: seq<Report>, minutes: nat)
    requires p > 0 && rs != [] && Chained(rs) && Spaced(p, rs) && WrittenOnTime(rs) && DistinctNames(rs)
    ensures Directory(rs, minutes) == Cleanup(rs, rs[|rs|-1].cleaned, minutes)
    decreases |rs|
  {
    hide Cleanup, Without, Spaced, Chained, WrittenOnTime, DistinctNames;
    var last, init := rs[|rs|-1], rs[..|rs|-1];
    assert rs == init + [last];
    if init == [] {
      NothingToOverwrite(last);
    } else {
      ButLast(p, rs);
      RunButLast(rs);
      NothingLostBeforeItsTime(p, init, minutes);
      OneMoreReport(p, init, last, minutes);
    }
  }

  lemma NothingToOverwrite(last: Report)
    ensures Without([], Name(last)) + [last] == [last]
  {
  }

  lemma OneMoreReport(p: nat, init: seq<Report>, last: Report, minutes: nat)
    requires p > 0 && init != [] && Spaced(p, init) && WrittenOnTime(init) && DistinctNames(init + [last])
    requires init[|init|-1].cleaned <= last.written <= last.cleaned
    requires Directory(init, minutes) == Cleanup(init, init[|init|-1].cleaned, minutes)
    ensures Cleanup(Without(Directory(init, minutes), Name(last)) + [last], last.cleaned, minutes)
            == Cleanup(init + [last], last.cleaned, minutes)
  {
    var dir := Directory(init, minutes);
    forall r | r in dir
      ensures r in init
    {
      CleanupKeeps(init, init[|init|-1].cleaned, minutes, r);
    }
    NameIsNew(init, last, dir);
    CleanupOnceMore(dir, init, last, init[|init|-1].cleaned, minutes);
  }

  lemma RunButLast(rs: seq<Report>)
    requires |rs| > 1 && Chained(rs) && DistinctNames(rs) && WrittenOnTime(rs)
    ensures Chained(rs[..|rs|-1]) && DistinctNames(rs[..|rs|-1])
            && rs[|rs|-2].cleaned <= rs[|rs|-1].written <= rs[|rs|-1].cleaned
  {
    assert rs[|rs|-1] in rs && Follows(rs[|rs|-2], rs[|rs|-1]);
  }

  lemma NameIsNew(init: seq<Report>, last: Report, dir: seq<Report>)
    requires DistinctNames(init + [last]) && forall r :: r in dir ==> r in init
    ensures forall r :: r in dir ==> Name(r) != Name(last)
  {
    var rs := init + [last];
    forall r | r in dir
      ensures Name(r) != Name(last)
    {
      var i :| 0 <= i < |init| && init[i] == r;
      assert Name(rs[i]) != Name(rs[|init|]);
    }
  }

  lemma CleanupOnceMore(dir: seq<Report>, init: seq<Report>, last: Report, before: nat, minutes: nat)
    requires before <= last.cleaned
    requires dir == Cleanup(init, before, minutes)
    requires forall r :: r in dir ==> Name(r) != Name(last)
    ensures Cleanup(Without(dir, Name(last)) + [last], last.cleaned, minutes)
            == Cleanup(init + [last], last.cleaned, minutes)
  {
    WithoutUnusedName(dir, Name(last));
    CleanupAppend(dir, [last], last.cleaned, minutes);
    CleanupTwice(init, before, last.cleaned, minutes);
    CleanupAppend(init, [last], last.cleaned, minutes);
  }

  // ---------- when names clash ----------

  /** Periods for which a run can give two reports one name: under a minute, or less than a minute off whole days. */
  predicate ClashingPeriod(p: nat) {
    p >= 2 && (p % 86_400 < 60 || p % 86_400 > 86_340)
  }

  /** A run as the thread makes it, at the pace the loop is built for, with everything on time. */
  ghost predicate OnTimeRun(p: nat, start: nat, ticks: seq<Tick>)
    requires p > 0
  {
    ticks != [] && start <= ticks[0].poll && Paced(p, ticks) && Prompt(p, ticks) && FilesOnTime(p, ticks)
  }

  /**
   A boundary at least a minute after another one is in a later minute than anything up to the end of that one's
   second.
   */
  lemma FarApartInMinutes(x: nat, b: nat, c: nat)
    requires x <= 1000 * b + 999 && b + 60 <= c
    ensures x / 60_000 < (1000 * c) / 60_000
  {
    MinuteOf(c / 60, c % 60);
    assert x < 60_000 * (c / 60);
  }

  lemma MinuteOf(m: nat, c: nat)
    requires c < 60
    ensures (1000 * (60 * m + c)) / 60_000 == m
  {
  }

  /** One period later, the hour and minute have changed. */
  lemma MinuteOfDayChanges(b: nat, p: nat)
    requires 60 <= p % 86_400 <= 86_340
    ensures (1000 * b) / 60_000 % 1440 != (1000 * (b + p)) / 60_000 % 1440
  {
    var m, y, days, r := b / 60, b % 60, p / 86_400, p % 86_400;
    var more := (y + r) / 60;
    assert b == 60 * m + y && 1 <= more <= 1439;
    MinuteOf(m, y);
    MinuteOf(m + 1440 * days + more, (y + r) % 60);
    assert b + p == 60 * (m + 1440 * days + more) + (y + r) % 60;
    MinutesDiffer(m, days, more);
  }

  lemma MinutesDiffer(m: nat, days: nat, more: nat)
    requires 1 <= more <= 1439
    ensures m % 1440 != (m + 1440 * days + more) % 1440
  {
    var q, r := m / 1440, m % 1440;
    if r + more < 1440 {
      Multiples.DivModUnique(m + 1440 * days + more, 1440, q + days, r + more);
    } else {
      Multiples.DivModUnique(m + 1440 * days + more, 1440, q + days + 1, r + more - 1440);
    }
  }

  /** Outside those periods, all names of a run are distinct, the first report's included. */
  lemma NamesAreDistinct(p: nat, n: nat, start: nat, ticks: seq<Tick>)
    requires p >= 2 && !ClashingPeriod(p) && n > 0
    requires ticks != [] && start <= ticks[0].poll && Paced(p, ticks) && Prompt(p, ticks)
    ensures DistinctNames(Reports(p, n, start, -1, ticks))
  {
    var rs := Reports(p, n, start, -1, ticks);
    PromptReportsMeet(p, n, start, -1, ticks);
    PromptReportsEndOnTheirBoundary(p, n, start, -1, ticks);
    EveryBoundaryExactlyOnce(p, n, start, -1, ticks);
    var b := FirstBoundary(p, Second(ticks[0].poll));
    assert start <= 1000 * b + 999;
    forall i, j | 0 <= i < j < |rs|
      ensures Name(rs[i]) != Name(rs[j])
    {
      assert rs[i] in rs && rs[j] in rs;
      NamesDiffer(p, b, start, rs, i, j);
    }
  }

  /** The start of report j, counted from one, is the boundary of the report before it. */
  lemma StartsAtBoundary(p: nat, b: nat, rs: seq<Report>, j: nat)
    requires 0 < j < |rs| && OnePeriodApart(p, b, rs) && OnBoundary(rs) && Tiled(rs)
    ensures rs[j].start == 1000 * (b + (j - 1) * p) && rs[j].end == 1000 * (b + j * p)
  {
    assert rs[j] in rs && rs[j - 1] in rs;
  }

  lemma FirstEndsAtBoundary(p: nat, b: nat, rs: seq<Report>)
    requires rs != [] && OnePeriodApart(p, b, rs) && OnBoundary(rs)
    ensures rs[0].end == 1000 * b
  {
    assert rs[0] in rs && rs[0].boundary == b + 0 * p;
  }

  lemma LaterStartDiffers(p: nat, b: nat, x: nat, i: nat, j: nat)
    requires 60 <= p && i < j && x <= 1000 * (b + i * p) + 999
    ensures x / 60_000 < (1000 * (b + j * p)) / 60_000
  {
    Multiples.Monotone(p, i + 1, j);
    assert (i + 1) * p == i * p + p;
    FarApartInMinutes(x, b + i * p, b + j * p);
  }

  lemma NamesDiffer(p: nat, b: nat, start: nat, rs: seq<Report>, i: nat, j: nat)
    requires p >= 2 && !ClashingPeriod(p) && i < j < |rs|
    requires OnePeriodApart(p, b, rs) && OnBoundary(rs) && Tiled(rs) && rs[0].start == start <= 1000 * b + 999
    ensures Name(rs[i]) != Name(rs[j])
  {
    StartsAtBoundary(p, b, rs, j);
    FirstEndsAtBoundary(p, b, rs);
    if j == 1 {
      MinuteOfDayChanges(b, p);
    } else if i == 0 {
      LaterStartDiffers(p, b, start, 0, j - 1);
    } else {
      StartsAtBoundary(p, b, rs, i);
      LaterStartDiffers(p, b, rs[i].start, i - 1, j - 1);
    }
  }

  // ---------- when they do ----------

  lemma {:induction false} SteadyOnTime(p: nat, k0: nat, len: nat)
    requires p >= 2
    ensures OnTimeRun(p, 1000 * (k0 * p), Steady(p, k0, len + 1))
  {
    SteadyIsPaced(p, k0, len + 1);
    assert SteadyPoll(p, k0, 0) == 1000 * (k0 * p);
  }

  lemma ReportsOfFirst(p: nat, n: nat, start: nat, index: int, t: Tick, rest: seq<Tick>)
    requires p > 0 && -1 <= index
    ensures Reports(p, n, start, index, [t] + rest) ==
            if Due(p, t) then [ReportOf(t, NextIndex(index, n), start)]
                              + Reports(p, n, WholeSecond(t.startRead), NextIndex(index, n), rest)
            else Reports(p, n, start, index, rest)
  {
    assert ([t] + rest)[1..] == rest;
  }

  /** Three steady turns from boundary k0 * p on give two reports. */
  lemma SteadyReports(p: nat, k0: nat, start: nat)
    requires p >= 2
    ensures var (b, next) := (k0 * p, k0 * p + p);
            Reports(p, 1, start, -1, Steady(p, k0, 3)) ==
            [Report(b, 0, start, 1000 * b, 1000 * b, 1000 * b),
                Report(next, 0, 1000 * b, 1000 * next, 1000 * next, 1000 * next)]
  {
    var ticks := Steady(p, k0, 3);
    SteadyDue(p, k0, 0);
    SteadyDue(p, k0, 1);
    SteadyDue(p, k0, 2);
    assert (k0 + 1) * p == k0 * p + p;
    var (t, idle, next) := (InstantTick(1000 * (k0 * p)), ticks[1], InstantTick(1000 * (k0 * p + p)));
    assert ticks == [t] + ([idle] + ([next] + []));
    ReportsOfFirst(p, 1, start, -1, t, [idle] + ([next] + []));
    ReportsOfFirst(p, 1, 1000 * (k0 * p), 0, idle, [next] + []);
    ReportsOfFirst(p, 1, 1000 * (k0 * p), 0, next, []);
    hide Due;
  }

  /** The boundary at which a clash can be shown: one that is late enough in its minute. */
  function ClashAt(p: nat): nat {
    if p % 86_400 < 60 then 60 else 59
  }

  lemma SameMinutes(p: nat)
    requires ClashingPeriod(p)
    ensures var b := ClashAt(p) * p; (1000 * b) / 60_000 % 1440 == (1000 * (b + p)) / 60_000 % 1440
  {
    var days, r := p / 86_400, p % 86_400;
    if r < 60 {
      MinuteOf(p, 0);
      MinuteOf(p + 1440 * days, r);
      Multiples.DivModUnique(p + 1440 * days, 1440, p / 1440 + days, p % 1440);
    } else {
      var c := 86_400 - r;
      MinuteOf(p, 0);
      MinuteOf(p - 1440 * (days + 1), c);
      var m := p - 1440 * (days + 1);
      Multiples.DivModUnique(p, 1440, m / 1440 + days + 1, m % 1440);
    }
  }

  /** In such a run the second report takes the name of the first, and the first file is lost long before its time. */
  lemma ClashLosesAFile(p: nat, minutes: nat)
    requires ClashingPeriod(p) && p <= 60 * minutes
    ensures var (start, ticks) := (1000 * (ClashAt(p) * p), Steady(p, ClashAt(p), 3));
            var rs := Reports(p, 1, start, -1, ticks);
            && OnTimeRun(p, start, ticks) && |rs| == 2 && Name(rs[0]) == Name(rs[1])
            && Directory(rs, minutes) == [rs[1]] && Cleanup(rs, rs[1].cleaned, minutes) == rs
  {
    var k0 := ClashAt(p);
    SteadyOnTime(p, k0, 2);
    SteadyReports(p, k0, 1000 * (k0 * p));
    SameMinutes(p);
    var rs := Reports(p, 1, 1000 * (k0 * p), -1, Steady(p, k0, 3));
    TwoFiles(rs, minutes);
  }

  lemma OneFile(r: Report, minutes: nat)
    ensures Directory([r], minutes) == Cleanup([r], r.cleaned, minutes)
    ensures r.cleaned - r.written <= 60_000 * minutes ==> Directory([r], minutes) == [r]
  {
    NothingToOverwrite(r);
    assert [r][..0] == [] && [r][1..] == [];
  }

  lemma TwoFiles(rs: seq<Report>, minutes: nat)
    requires |rs| == 2 && Name(rs[0]) == Name(rs[1])
    requires rs[0].written <= rs[0].cleaned <= rs[1].written == rs[1].cleaned <= rs[0].written + 60_000 * minutes
    ensures Directory(rs, minutes) == [rs[1]] && Cleanup(rs, rs[1].cleaned, minutes) == rs
  {
    var first, second := rs[0], rs[1];
    OneFile(first, minutes);
    assert rs[..1] == [first] && rs[1..] == [second] && [first][1..] == [] && [second][1..] == [];
    assert Without([first], Name(second)) == [];
    assert Cleanup([second], second.cleaned, minutes) == [second];
    assert [] + [second] == [second] && rs == [first] + [second];
  }

  ghost predicate ClashingRun(p: nat, n: nat, start: nat, ticks: seq<Tick>)
    requires p > 0
  {
    n > 0 && OnTimeRun(p, start, ticks) && !DistinctNames(Reports(p, n, start, -1, ticks))
  }

  /**
   Some run at the pace of the loop gives two reports one file name exactly when the period is under a
   minute, or less than a minute away from a whole number of days. A period of one second leaves no such
   run: it allows one report only.
   */
  lemma FileNamesClashIff(p: nat)
    requires p > 0
    ensures (exists n, start, ticks :: ClashingRun(p, n, start, ticks)) <==> ClashingPeriod(p)
  {
    if ClashingPeriod(p) {
      ClashLosesAFile(p, p);
      var k0 := ClashAt(p);
      assert ClashingRun(p, 1, 1000 * (k0 * p), Steady(p, k0, 3));
    } else {
      forall n, start, ticks | n > 0 && OnTimeRun(p, start, ticks)
        ensures DistinctNames(Reports(p, n, start, -1, ticks))
      {
        if p == 1 {
          OneTickAtMost(n, start, ticks);
        } else {
          NamesAreDistinct(p, n, start, ticks);
        }
      }
    }
  }

  lemma OneTickAtMost(n: nat, start: nat, ticks: seq<Tick>)
    requires Paced(1, ticks)
    ensures |Reports(1, n, start, -1, ticks)| <= 1
  {
    if |ticks| > 1 {
      PaceNeedsTwoSeconds(1, ticks);
    }
    EveryTurnReports(n, start, -1, ticks);
  }

  /** So for all other periods, over every such run, no file is lost before its time. */
  lemma NothingLostOverEveryRun(p: nat, n: nat, start: nat, ticks: seq<Tick>, minutes: nat)
    requires p >= 2 && !ClashingPeriod(p) && n > 0 && OnTimeRun(p, start, ticks)
    ensures var rs := Reports(p, n, start, -1, ticks);
            rs != [] ==> Directory(rs, minutes) == Cleanup(rs, rs[|rs|-1].cleaned, minutes)
  {
    var rs := Reports(p, n, start, -1, ticks);
    NoBoundaryTwiceNoOverlap(p, n, start, -1, ticks);
    ReportsOnTime(p, n, start, -1, ticks);
    RunsAreSpaced(p, rs);
    NamesAreDistinct(p, n, start, ticks);
    if rs != [] {
      NothingLostBeforeItsTime(p, rs, minutes);
    }
  }

  /** With a repetition period of full minutes, the files on disk are exactly those not older than that period. */
  lemma KeptForTheRepetitionPeriod(p: nat, repetitionPeriod: nat, n: nat, start: nat, ticks: seq<Tick>, r: Report)
    requires p >= 2 && !ClashingPeriod(p) && n > 0 && OnTimeRun(p, start, ticks) && repetitionPeriod % 60 == 0
    requires Reports(p, n, start, -1, ticks) != []
    ensures var rs := Reports(p, n, start, -1, ticks);
            r in Directory(rs, MaxAgeMinutes(repetitionPeriod)) <==>
              r in rs && rs[|rs|-1].cleaned - r.written <= 1000 * repetitionPeriod
  {
    hide Reports, Directory, OnTimeRun, ClashingPeriod, Cleanup;
    var rs := Reports(p, n, start, -1, ticks);
    NothingLostOverEveryRun(p, n, start, ticks, MaxAgeMinutes(repetitionPeriod));
    CleanupKeeps(rs, rs[|rs|-1].cleaned, MaxAgeMinutes(repetitionPeriod), r);
  }
}
