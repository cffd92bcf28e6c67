/**
 The performance-management object: loading its configuration, generating the text of a report, and
 the polling thread. What it reports is specified in PmScheduler, what a report says in
 ReportTemplate.
 */
module PerformanceManagement {
  import opened Strings
  import opened InterruptibleSleep
  import PmScheduler
  import PmRetention
  import ReportReading
  import Template = ReportTemplate
  import TextFormats

  /** The contents of index.json. */
  datatype PmConfig = PmConfig(logPeriod: int, repetitionPeriod: int, points: seq<string>,
      values: seq<map<string, int>>)

  datatype LoadError = FileNotFound | NotFullMinutes | ZeroPeriod | NotAMultiple | PointMissing

  datatype Loaded = Ok | Raised(error: LoadError)

  /** How the thread ends: without a usable period or any value set, its first or first due turn raises. */
  datatype Exit = Stopped | SleepRaised | SendRaised | GenerateRaised | NoValues | NoPeriod

  /** str(n) */
  function Str(n: int): string {
    if n < 0 then "-" + Decimal(-n) else Decimal(n)
  }

  /** int(s) */
  function ReadInt(s: string): Option<int> {
    if s == "" then None
    else if s[0] == '-' then if s[1..] != "" && Digits(s[1..]) then Some(0 - Number(s[1..])) else None
    else if Digits(s) then Some(Number(s)) else None
  }

  lemma StrReadsBack(n: int)
    ensures ReadInt(Str(n)) == Some(n) && '@' !in Str(n)
  {
    hide Decimal, Number;
    var s := Decimal(if n < 0 then -n else n);
    NumberOfDecimal(if n < 0 then -n else n);
    DigitsOnly(s);
    if n < 0 {
      assert Str(n)[1..] == s;
    }
  }

  lemma DigitsOnly(s: string)
    requires Digits(s) && s != ""
    ensures s[0] != '-' && '@' !in s
  {
    assert s[0] in s;
  }

  /** The turns a run has made, what came out of them, what the loop goes on from, and when. */
  datatype Progress = Progress(startTime: nat, ticks: seq<PmScheduler.Tick>, reports: seq<PmScheduler.Report>,
                               texts: seq<string>, start: nat, index: int, now: nat)

  // ---------- the clock in a turn ----------

  /** The accesses of a due turn after its poll: the end of the report is read, ... */
  function EndRead(env: Env, poll: Moment): Moment {
    Read(env, poll)
  }

  /** ... the file is written, ... */
  function Written(env: Env, work: nat -> nat, poll: Moment): Moment {
    Pause(env, EndRead(env, poll), work(EndRead(env, poll).step))
  }

  /** ... the next start is read, ... */
  function StartRead(env: Env, work: nat -> nat, poll: Moment): Moment {
    Read(env, Written(env, work, poll))
  }

  /** ... old files are removed, ... */
  function Cleaned(env: Env, work: nat -> nat, poll: Moment): Moment {
    Pause(env, StartRead(env, work, poll), work(StartRead(env, work, poll).step))
  }

  /** ... and the message is sent. */
  function Sent(env: Env, work: nat -> nat, poll: Moment): Moment {
    Pause(env, Cleaned(env, work, poll), work(Cleaned(env, work, poll).step))
  }

  /** The stages of a due turn come in order, and with bounded delays soon after each other. */
  lemma StagesInOrder(env: Env, work: nat -> nat, poll: Moment, slack: nat, effort: nat)
    ensures poll.now <= EndRead(env, poll).now <= Written(env, work, poll).now <= StartRead(env, work, poll).now
            <= Cleaned(env, work, poll).now <= Sent(env, work, poll).now
    ensures Bounded(env, slack) && (forall i :: work(i) <= effort) ==>
              Cleaned(env, work, poll).now <= poll.now + 2 * effort + 4 * slack
              && Sent(env, work, poll).now <= poll.now + 3 * effort + 5 * slack
  {
    var m1, m2, m3, m4 := EndRead(env, poll), Written(env, work, poll), StartRead(env, work, poll),
      Cleaned(env, work, poll);
    hide Bounded;
    PauseTakes(env, poll, 0, slack);
    PauseTakes(env, m1, work(m1.step), slack);
    PauseTakes(env, m2, 0, slack);
    PauseTakes(env, m3, work(m3.step), slack);
    PauseTakes(env, m4, work(m4.step), slack);
  }

  lemma PauseTakes(env: Env, m: Moment, d: nat, slack: nat)
    ensures m.now + d <= Pause(env, m, d).now && Pause(env, m, 0) == Read(env, m)
    ensures Bounded(env, slack) ==> Pause(env, m, d).now <= m.now + d + slack
  {
  }

  /** The readings of a turn that polls at this moment. */
  function TickAt(p: nat, env: Env, work: nat -> nat, poll: Moment): PmScheduler.Tick
    requires p > 0
  {
    if poll.now / 1000 % p == 0 then
      PmScheduler.Tick(poll.now, EndRead(env, poll).now, Written(env, work, poll).now, StartRead(env, work, poll).now,
                       Cleaned(env, work, poll).now)
    else PmScheduler.Tick(poll.now, poll.now, poll.now, poll.now, poll.now)
  }

  /** A second's sleep after a report, then a tenth of a second: whether one raises, and when they are over. */
  function Sleeps(env: Env, m: Moment, reported: bool): (bool, Moment) {
    var (long, between) := if reported then SaSleep(env, m, 1000, false) else (Elapsed, m);
    if long.NegativeSleep? then (true, between)
    else
      var (short, end) := SaSleep(env, between, 100, false);
      (short.NegativeSleep?, end)
  }

  /** The sleeps of a turn that polls at this moment and gets as far as that. */
  function SleepsOf(p: nat, env: Env, work: nat -> nat, poll: Moment): (bool, Moment)
    requires p > 0
  {
    var due := poll.now / 1000 % p == 0;
    Sleeps(env, if due then Sent(env, work, poll) else poll, due)
  }

  /** Some turn with these readings is ended by a sleep that raises. */
  ghost predicate SleepFails(p: nat, env: Env, work: nat -> nat, t: PmScheduler.Tick)
    requires p > 0
  {
    exists poll: Moment :: t == TickAt(p, env, work, poll) && SleepsOf(p, env, work, poll).0
  }

  /** A flag is up before the given instant. */
  predicate FlagBefore(env: Env, t: nat) {
    (env.stop.At? && env.stop.ms < t) || (env.extra.At? && env.extra.ms < t)
  }

  predicate AllPresent(points: seq<string>, values: seq<map<string, int>>) {
    forall v :: v in values ==> forall p :: p in points ==> p in v
  }

  /** The first test of load_data that fails, in the order the program makes them. */
  function FirstError(c: PmConfig): Loaded {
    if c.repetitionPeriod % 60 != 0 then Raised(NotFullMinutes)
    else if c.logPeriod == 0 then Raised(ZeroPeriod)
    else if c.repetitionPeriod % c.logPeriod != 0 then Raised(NotAMultiple)
    else if !AllPresent(c.points, c.values) then Raised(PointMissing)
    else Ok
  }

  class PerformanceManagement {
    var logPeriod: int
    var repetitionPeriod: int
    var points: seq<string>
    var values: seq<map<string, int>>
    var pointsId: map<string, string>
    var maxAgeMinutes: int
    var template: string
    const hostname: string
    /** How strftime renders an instant. */
    const timestamp: nat -> string
    var reports: seq<PmScheduler.Report>
    /** What was written to the files opened so far. */
    var texts: seq<string>

    constructor (hostname: string, template: string, timestamp: nat -> string)
      ensures this.hostname == hostname && this.template == template && this.timestamp == timestamp
      ensures reports == [] && texts == []
      ensures logPeriod == repetitionPeriod == 0 && points == [] && values == [] && pointsId == map[]
      ensures maxAgeMinutes == 1440
    {
      this.hostname, this.template, this.timestamp := hostname, template, timestamp;
      logPeriod, repetitionPeriod, points, values, pointsId, maxAgeMinutes := 0, 0, [], [], map[], 1440;
      reports, texts := [], [];
    }

    /**
     load_data with config None: the fields are assigned before the tests, so a rejected configuration
     stays in place; the ids are only rebuilt when all tests pass.
     */
    method LoadData(file: Option<PmConfig>) returns (result: Loaded)
      modifies this
      ensures unchanged(`template) && unchanged(`reports) && unchanged(`texts)
      ensures file.None? ==> result == Raised(FileNotFound) && unchanged(this)
      ensures file.Some? ==>
        && logPeriod == file.value.logPeriod && repetitionPeriod == file.value.repetitionPeriod
        && points == file.value.points && values == file.value.values
        && result == FirstError(file.value)
        && (result == Raised(NotFullMinutes) <==> repetitionPeriod % 60 != 0)
        && (result.Ok? <==>
              && repetitionPeriod % 60 == 0 && logPeriod != 0 && repetitionPeriod % logPeriod == 0
              && forall v, p :: v in values && p in points ==> p in v)
      ensures result.Ok? ==>
        && AllPresent(points, values) && pointsId == ReportReading.PointIds(points)
        && logPeriod != 0 && repetitionPeriod % logPeriod == 0 && maxAgeMinutes * 60 == repetitionPeriod
        && AllReady()
      ensures result.Raised? ==> unchanged(`pointsId)
    {
      if file.None? {
        return Raised(FileNotFound);
      }
      logPeriod, repetitionPeriod := file.value.logPeriod, file.value.repetitionPeriod;
      points, values := file.value.points, file.value.values;
      if repetitionPeriod % 60 != 0 {
        return Raised(NotFullMinutes);
      }
      if logPeriod == 0 {
        return Raised(ZeroPeriod);
      }
      if repetitionPeriod % logPeriod != 0 {
        return Raised(NotAMultiple);
      }
      maxAgeMinutes := repetitionPeriod / 60;
      var complete := CheckValues();
      if !complete {
        return Raised(PointMissing);
      }
      AssignIds();
      LoadedIsReady();
      result := Ok;
    }

    /** The nested loops that look every point up in every value set. */
    method CheckValues() returns (complete: bool)
      ensures complete == AllPresent(points, values)
    {
      for i := 0 to |values|
        invariant AllPresent(points, values[..i])
      {
        for j := 0 to |points|
          invariant forall p :: p in points[..j] ==> p in values[i]
        {
          if points[j] !in values[i] {
            assert points[j] in points && values[i] in values;
            return false;
          }
        }
        assert points[..|points|] == points && values[..i + 1] == values[..i] + [values[i]];
      }
      assert values[..|values|] == values;
      complete := true;
    }

    method AssignIds()
      modifies `pointsId
      ensures pointsId == ReportReading.PointIds(points)
    {
      pointsId := map[];
      var counter := 1;
      for i := 0 to |points|
        invariant counter == i + 1
        invariant pointsId == ReportReading.PointIds(points[..i])
      {
        assert points[..i + 1][..i] == points[..i];
        pointsId := pointsId[points[i] := Decimal(counter)];
        counter := counter + 1;
      }
      assert points[..|points|] == points;
    }

    // ---------- the text of a report ----------

    /** Every point has an id, and a value in this set. */
    predicate HasAll(valueSet: map<string, int>)
      reads `points, `pointsId
    {
      forall p :: p in points ==> p in pointsId && p in valueSet
    }

    ghost predicate AllReady()
      reads `points, `pointsId, `values
    {
      forall v :: v in values ==> HasAll(v)
    }

    lemma LoadedIsReady()
      requires AllPresent(points, values) && pointsId == ReportReading.PointIds(points)
      ensures AllReady()
    {
      ReportReading.PointIdsCover(points);
    }

    /**
     The data read back to what they stand for: the times of the report, its suspect text, the periods as numbers of
     seconds, the ids and the values as numbers.
     */
    predicate Describes(d: Template.Data, valueSet: map<string, int>, r: PmScheduler.Report)
      reads `logPeriod, `repetitionPeriod, `points, `pointsId
    {
      && d.startTime == timestamp(r.start) && d.endTime == timestamp(r.end)
      && d.suspect == (if r.end - r.start < 1000 * logPeriod then "<suspect>true</suspect>" else "")
      && TextFormats.ParseDuration(d.logPeriod) == Some(logPeriod)
      && TextFormats.ParseDuration(d.repPeriod) == Some(repetitionPeriod)
      && d.hostname == hostname && d.points == points && d.ids == pointsId
      && d.values.Keys == valueSet.Keys && forall p :: p in valueSet ==> ReadInt(d.values[p]) == Some(valueSet[p])
    }

    /** The data of this report, as the program puts them together. */
    function ReportData(valueSet: map<string, int>, r: PmScheduler.Report): Template.Data
      reads `logPeriod, `repetitionPeriod, `points, `pointsId
      requires logPeriod >= 0 && repetitionPeriod >= 0
    {
      Template.Data(timestamp(r.start), timestamp(r.end),
                    if PmScheduler.Suspect(logPeriod, r) then "<suspect>true</suspect>" else "",
                    TextFormats.Show(TextFormats.Split(logPeriod)),
                    TextFormats.Show(TextFormats.Split(repetitionPeriod)), hostname, points, pointsId,
                    map p | p in valueSet :: Str(valueSet[p]))
    }

    lemma DataDescribe(valueSet: map<string, int>, r: PmScheduler.Report)
      requires logPeriod >= 0 && repetitionPeriod >= 0
      ensures Describes(ReportData(valueSet, r), valueSet, r)
      ensures ReportData(valueSet, r).points == points && ReportData(valueSet, r).ids == pointsId
    {
      hide TextFormats.Show, TextFormats.Split, TextFormats.ParseDuration, ReadInt, Str;
      TextFormats.DurationRoundTrip(logPeriod);
      TextFormats.DurationRoundTrip(repetitionPeriod);
      forall p | p in valueSet
        ensures ReadInt(Str(valueSet[p])) == Some(valueSet[p])
      {
        StrReadsBack(valueSet[p]);
      }
    }

    /** The text of a report that shows this value set. */
    function ContentOf(valueSet: map<string, int>, r: PmScheduler.Report): string
      reads `logPeriod, `repetitionPeriod, `points, `pointsId, `template
      requires logPeriod >= 0 && repetitionPeriod >= 0 && HasAll(valueSet)
    {
      Template.Content(template, ReportData(valueSet, r))
    }

    /** The report can show its value set: that exists and has every point. */
    predicate Showable(r: PmScheduler.Report)
      reads `values, `points, `pointsId
    {
      r.valueIndex < |values| && HasAll(values[r.valueIndex])
    }

    /** The text of the report, for the value set of its index. */
    function TextOf(r: PmScheduler.Report): string
      reads `logPeriod, `repetitionPeriod, `points, `pointsId, `template, `values
      requires logPeriod >= 0 && repetitionPeriod >= 0 && Showable(r)
    {
      ContentOf(values[r.valueIndex], r)
    }

    lemma DataIsComplete(valueSet: map<string, int>, r: PmScheduler.Report)
      requires logPeriod >= 0 && repetitionPeriod >= 0
      ensures Template.Complete(ReportData(valueSet, r)) <==> HasAll(valueSet)
    {
    }

    // ---------- what a reader of a report gets ----------

    /** None of the inputs has the character that delimits variables. */
    predicate WithoutAt(r: PmScheduler.Report)
      reads `points
    {
      && '@' !in timestamp(r.start) && '@' !in timestamp(r.end) && '@' !in hostname
      && forall p :: p in points ==> '@' !in p
    }

    lemma DataIsClean(valueSet: map<string, int>, r: PmScheduler.Report)
      requires logPeriod >= 0 && repetitionPeriod >= 0 && HasAll(valueSet) && WithoutAt(r)
      requires pointsId == ReportReading.PointIds(points)
      ensures Template.CleanData(ReportData(valueSet, r))
    {
      hide Str, Decimal, TextFormats.Show, TextFormats.Split, ReportReading.PointIds;
      TextFormats.ShowHasNoAt(TextFormats.Split(logPeriod));
      TextFormats.ShowHasNoAt(TextFormats.Split(repetitionPeriod));
      ReportReading.PointIdsCover(points);
      forall p | p in points
        ensures '@' !in pointsId[p] && '@' !in Str(valueSet[p])
      {
        DigitsOnly(pointsId[p]);
        StrReadsBack(valueSet[p]);
      }
    }

    /** The row of a point, read back: its id, and its name or the number that was measured. */
    predicate RowShows(row: ReportReading.Row, kind: Template.Kind, valueSet: map<string, int>, point: string)
      reads `pointsId
    {
      && point in pointsId && point in valueSet && row.id == pointsId[point]
      && if kind.PointBlock? then row.cell == point else ReadInt(row.cell) == Some(valueSet[point])
    }

    /** The rows of a block: row k is that of point k, and for distinct points its id is its position. */
    ghost predicate RowsShow(rows: seq<ReportReading.Row>, kind: Template.Kind, valueSet: map<string, int>)
      reads `points, `pointsId
    {
      && |rows| == |points|
      && forall k :: 0 <= k < |points| ==>
           && RowShows(rows[k], kind, valueSet, points[k])
           && (ReportReading.Distinct(points) ==> ReadInt(rows[k].id) == Some(k + 1))
    }

    /**
     From the value set to the text and back: with a template made of sections, every row of every block of the
     report is found, the type rows name the points, the value rows have the values of the value set, and all
     around them the variables stand for the report's own times, periods and host.
     */
    lemma ReportShowsValueSet(sections: seq<ReportReading.Section>, tail: seq<Template.Tok>, valueSet: map<string, int>,
                              r: PmScheduler.Report)
      requires logPeriod >= 0 && repetitionPeriod >= 0 && HasAll(valueSet) && WithoutAt(r)
      requires pointsId == ReportReading.PointIds(points)
      requires template == Template.Source(ReportReading.Items(sections, tail))
      requires Template.WellFormed(ReportReading.Items(sections, tail)) && ReportReading.OneLayoutPerKind(sections)
      requires Template.Complete(ReportData(valueSet, r))
      requires ReportReading.Findable(sections, tail, ReportData(valueSet, r))
      ensures var read := ReportReading.ReadReport(sections, ContentOf(valueSet, r));
              && read.Some? && |read.value| == |sections|
              && forall j :: 0 <= j < |sections| ==> RowsShow(read.value[j], sections[j].kind, valueSet)
      ensures exists d ::
                && Template.Complete(d) && Describes(d, valueSet, r)
                && ContentOf(valueSet, r) == Template.OwnReport(ReportReading.Items(sections, tail), d)
    {
      hide Template.WellFormed, Template.Content, Template.Source, Template.OwnReport, ReportReading.Items,
           ReportReading.ReadReport, ReportReading.Findable, ReportReading.OneLayoutPerKind, Describes, ReportData;
      var d, items := ReportData(valueSet, r), ReportReading.Items(sections, tail);
      DataIsClean(valueSet, r);
      DataDescribe(valueSet, r);
      ReportReading.DataIsComplete(d);
      ReportReading.ReportReadsBack(sections, tail, d);
      ReportReading.SectionsAreUniform(sections, tail);
      Template.UniformTemplatesExpandInPlace(items, d);
      var read := ReportReading.ReadReport(sections, ContentOf(valueSet, r)).value;
      forall j | 0 <= j < |sections|
        ensures RowsShow(read[j], sections[j].kind, valueSet)
      {
        RowsOfDescribed(read[j], sections[j].kind, d, valueSet, r);
      }
    }

    lemma RowsOfDescribed(rows: seq<ReportReading.Row>, kind: Template.Kind, d: Template.Data,
                          valueSet: map<string, int>, r: PmScheduler.Report)
      requires HasAll(valueSet) && Template.Complete(d) && Describes(d, valueSet, r)
      requires pointsId == ReportReading.PointIds(points) && ReportReading.ShowsPoints(rows, kind, d)
      ensures RowsShow(rows, kind, valueSet)
    {
      hide ReadInt, RowShows, ReportReading.PointIds, ReportReading.Distinct, HasAll, Template.Complete, Describes;
      if ReportReading.Distinct(points) {
        IdsArePositions();
      }
      WhatIsDescribed(d, valueSet, r);
      forall k | 0 <= k < |points|
        ensures RowShows(rows[k], kind, valueSet, points[k])
        ensures points[k] in pointsId && rows[k].id == pointsId[points[k]]
      {
        RowOfDescribed(rows[k], kind, d, valueSet, r, points[k]);
      }
    }

    lemma WhatIsDescribed(d: Template.Data, valueSet: map<string, int>, r: PmScheduler.Report)
      requires HasAll(valueSet) && Template.Complete(d) && Describes(d, valueSet, r)
      ensures d.points == points && d.ids == pointsId
      ensures forall k :: 0 <= k < |points| ==> points[k] in points && points[k] in d.ids && points[k] in d.values
    {
    }

    lemma RowOfDescribed(row: ReportReading.Row, kind: Template.Kind, d: Template.Data, valueSet: map<string, int>,
                         r: PmScheduler.Report, point: string)
      requires point in points && HasAll(valueSet) && Template.Complete(d) && Describes(d, valueSet, r)
      requires point in d.ids && point in d.values
      requires row == ReportReading.Row(d.ids[point], Template.Column(kind, d, point))
      ensures RowShows(row, kind, valueSet, point) && row.id == pointsId[point]
    {
      hide ReadInt;
    }

    lemma IdsArePositions()
      requires pointsId == ReportReading.PointIds(points) && ReportReading.Distinct(points)
      ensures forall k :: 0 <= k < |points| ==> points[k] in pointsId && ReadInt(pointsId[points[k]]) == Some(k + 1)
    {
      hide ReadInt, Str, Decimal, ReportReading.PointIds, ReportReading.Distinct;
      forall k: nat | k < |points|
        ensures points[k] in pointsId && ReadInt(pointsId[points[k]]) == Some(k + 1)
      {
        ReportReading.PointIdsAreDense(points, k);
        StrReadsBack(k + 1);
        PositiveStr(k + 1);
      }
    }

    lemma PositiveStr(n: nat)
      ensures Str(n) == Decimal(n)
    {
    }

    /** What one block round looks up for every point: its id, and in a value block its value. */
    predicate Found(kind: Template.Kind, d: Template.Data, points: seq<string>) {
      forall p :: p in points ==> p in d.ids && (kind.ValueBlock? ==> p in d.values)
    }

    /**
     One of the two block rounds of content(): search, build the replacement point by point, substitute. A
     point that is not found raises, whether the template has such a block or not.
     */
    method ExpandBlocks(kind: Template.Kind, d: Template.Data, text: string) returns (result: Option<string>)
      ensures result.Some? <==> Found(kind, d, d.points)
      ensures Template.Complete(d) ==> result == Some(Template.Expand(kind, d, text))
    {
      var open, close := Template.Marker(Template.OpenName(kind)), Template.Marker(Template.CloseName(kind));
      var found := Template.Search(text, open, close);
      var pointIter := if found.Some? then found.value else "";
      var replacement := "";
      for i := 0 to |d.points|
        invariant Found(kind, d, d.points[..i])
        invariant Template.Complete(d) ==> replacement == RowsUpTo(kind, d, pointIter, i)
      {
        var point := d.points[i];
        if point !in d.ids || (kind.ValueBlock? && point !in d.values) {
          assert point in d.points;
          return None;
        }
        var newPoint := Replace(pointIter, Template.Marker("point-id"), d.ids[point]);
        var column := if kind.PointBlock? then point else d.values[point];
        newPoint := Replace(newPoint, Template.Marker(Template.ColumnName(kind)), column);
        replacement := replacement + (newPoint + "\n");
        RowsUpToGrow(kind, d, pointIter, i);
      }
      assert d.points[..|d.points|] == d.points;
      result := Some(Template.Sub(text, open, close, replacement));
    }

    function RowsUpTo(kind: Template.Kind, d: Template.Data, body: string, n: nat): string
      requires n <= |d.points| && Template.Complete(d)
    {
      assert forall p :: p in d.points[..n] ==> p in d.points;
      Template.Rows(kind, d, body, d.points[..n])
    }

    lemma RowsUpToGrow(kind: Template.Kind, d: Template.Data, body: string, i: nat)
      requires i < |d.points|
      ensures Template.Complete(d) ==>
                && d.points[i] in d.ids && d.points[i] in d.values
                && RowsUpTo(kind, d, body, i + 1)
                   == RowsUpTo(kind, d, body, i) + Template.Row(kind, d, body, d.points[i])
      ensures forall p :: p in d.points[..i + 1] ==> p in d.points[..i] || p == d.points[i]
    {
      assert d.points[..i + 1] == d.points[..i] + [d.points[i]] && d.points[i] in d.points;
      if Template.Complete(d) {
        Template.RowsGrow(kind, d, body, d.points[..i], d.points[i]);
      }
    }

    /** The first half of content(): the variables of the header. */
    method FillHeader(d: Template.Data) returns (text: string)
      ensures text == Template.ReplaceAll(template, Template.HeaderVars(d))
    {
      hide Replace, Template.ReplaceAll, Template.HeaderVars;
      text := Replace(template, Template.Marker("start-time"), d.startTime);
      text := Replace(text, Template.Marker("end-time"), d.endTime);
      text := Replace(text, Template.Marker("suspect"), d.suspect);
      text := Replace(text, Template.Marker("log-period"), d.logPeriod);
      text := Replace(text, Template.Marker("rep-period"), d.repPeriod);
      Template.HeaderReplacements(template, d);
    }

    /** The texts that content() puts together before it fills the template. */
    method Collect(valueSet: map<string, int>, r: PmScheduler.Report) returns (d: Template.Data)
      requires logPeriod >= 0 && repetitionPeriod >= 0
      ensures d == ReportData(valueSet, r)
    {
      hide TextFormats.Show, TextFormats.Split, TextFormats.ParseDuration, Str;
      var suspectText := "";
      if r.end - r.start < 1000 * logPeriod {
        suspectText := "<suspect>true</suspect>";
      }
      var logText := TextFormats.SecondsToDuration(logPeriod);
      var repText := TextFormats.SecondsToDuration(repetitionPeriod);
      d := Template.Data(timestamp(r.start), timestamp(r.end), suspectText, logText, repText, hostname, points,
                         pointsId, map p | p in valueSet :: Str(valueSet[p]));
    }

    /** content(): the text of one report, or None when a point has no id or no value. */
    method Content(valueSet: map<string, int>, r: PmScheduler.Report) returns (text: Option<string>)
      requires logPeriod >= 0 && repetitionPeriod >= 0
      ensures text == if HasAll(valueSet) then Some(ContentOf(valueSet, r)) else None
      ensures text.Some? ==>
                exists d :: Template.Complete(d) && Describes(d, valueSet, r)
                  && text.value == Template.Content(template, d)
    {
      hide Template.Content, Template.Complete, PmScheduler.Suspect, Describes, ReportData;
      var d := Collect(valueSet, r);
      DataDescribe(valueSet, r);
      DataIsComplete(valueSet, r);
      text := Fill(d);
    }

    /** The replacements of content(), one after the other. */
    method Fill(d: Template.Data) returns (text: Option<string>)
      requires d.points == points
      ensures text == if Template.Complete(d) then Some(Template.Content(template, d)) else None
    {
      hide Replace, Found, Template.Content, Template.Expand, Template.ReplaceAll, Template.HeaderVars,
           Template.Complete;
      var header := FillHeader(d);
      var typed := ExpandBlocks(Template.PointBlock, d, header);
      var valued := None;
      if typed.Some? {
        valued := ExpandBlocks(Template.ValueBlock, d, typed.value);
      }
      FoundInBothRounds(d);
      if valued.None? {
        return None;
      }
      text := Some(Replace(valued.value, Template.Marker("hostname"), d.hostname));
      ContentInSteps(template, d);
    }

    lemma FoundInBothRounds(d: Template.Data)
      ensures Template.Complete(d) <==> Found(Template.ValueBlock, d, d.points)
      ensures Template.Complete(d) ==> Found(Template.PointBlock, d, d.points)
    {
    }

    lemma ContentInSteps(template: string, d: Template.Data)
      requires Template.Complete(d)
      ensures Template.Content(template, d)
              == Replace(Template.Expand(Template.ValueBlock, d,
                           Template.Expand(Template.PointBlock, d,
                               Template.ReplaceAll(template, Template.HeaderVars(d)))),
                         Template.Marker("hostname"), d.hostname)
    {
    }

    // ---------- the polling thread ----------

    /** Clock accesses take at most slack, and writing a file, cleaning up and sending at most effort each. */
    ghost predicate Delays(env: Env, work: nat -> nat, slack: nat, effort: nat) {
      Bounded(env, slack) && forall i :: work(i) <= effort
    }

    /** The delays are small enough for the period. */
    ghost predicate Pace(env: Env, work: nat -> nat, slack: nat, effort: nat)
      reads `logPeriod
    {
      && Delays(env, work, slack, effort)
      && 100 + 4 * slack < 1000
      && 1100 + 3 * effort + 12 * slack < 1000 * logPeriod
    }

    ghost predicate StopSeen(clock: Clock)
      reads clock
    {
      Passed(clock.env.stop, clock.Current()) || Passed(clock.env.extra, clock.Current())
    }

    /** At this instant the next poll may follow, ... */
    predicate Spaced(now: nat, last: PmScheduler.Tick)
      requires logPeriod > 0
      reads `logPeriod
    {
      last.cleaned + (if PmScheduler.Due(logPeriod, last) then 1100 else 100) <= now
    }

    /** ... and with small delays it is not too late for it. */
    ghost predicate InTime(env: Env, now: nat, work: nat -> nat, slack: nat, effort: nat, last: PmScheduler.Tick)
      requires logPeriod > 0
      reads `logPeriod
    {
      Pace(env, work, slack, effort) ==> now + slack < PmScheduler.PolledUntil(logPeriod, last)
    }

    /**
     generate_report, the next start time, and the cleanup. The file is opened before its text is made, so an
     exception leaves it empty.
     */
    method Generate(clock: Clock, work: nat -> nat, poll: nat, valueIndex: nat, startTime: nat, ghost slack: nat,
                    ghost effort: nat)
      returns (raised: bool, tick: PmScheduler.Tick)
      requires clock.now == poll && valueIndex < |values| && logPeriod >= 0 && repetitionPeriod >= 0
      modifies `reports, `texts, clock
      ensures raised <==> !HasAll(values[valueIndex])
      ensures tick.poll == poll <= clock.now
      ensures raised ==> reports == old(reports) && texts == old(texts) + [""]
      ensures !raised ==>
        && PmScheduler.Ordered(tick) && clock.Current() == Cleaned(clock.env, work, old(clock.Current()))
        && tick == PmScheduler.Tick(poll, EndRead(clock.env, old(clock.Current())).now,
                                    Written(clock.env, work, old(clock.Current())).now,
                                    StartRead(clock.env, work, old(clock.Current())).now, clock.now)
        && reports == old(reports) + [PmScheduler.ReportOf(tick, valueIndex, startTime)]
        && Showable(PmScheduler.ReportOf(tick, valueIndex, startTime))
        && texts == old(texts) + [TextOf(PmScheduler.ReportOf(tick, valueIndex, startTime))]
        && (Delays(clock.env, work, slack, effort) ==> clock.now <= poll + 2 * effort + 4 * slack)
    {
      hide HasAll, ContentOf, Bounded, Describes, Template.Complete, Template.Content;
      ghost var start := clock.Current();
      StagesInOrder(clock.env, work, start, slack, effort);
      clock.Access(0);
      var endRead := clock.now;
      tick := PmScheduler.Tick(poll, endRead, endRead, endRead, endRead);
      var text := Content(values[valueIndex], PmScheduler.ReportOf(tick, valueIndex, startTime));
      if text.None? {
        texts := texts + [""];
        return true, tick;
      }
      OnlyTimesShow(values[valueIndex]);
      clock.Access(work(clock.step));
      var written := clock.now;
      clock.Access(0);
      var startRead := clock.now;
      clock.Access(work(clock.step));
      tick := PmScheduler.Tick(poll, endRead, written, startRead, clock.now);
      reports := reports + [PmScheduler.ReportOf(tick, valueIndex, startTime)];
      texts := texts + [text.value];
      raised := false;
    }

    /** When the file is written and cleaned up does not show in its text. */
    lemma OnlyTimesShow(valueSet: map<string, int>)
      requires logPeriod >= 0 && repetitionPeriod >= 0 && HasAll(valueSet)
      ensures forall r: PmScheduler.Report, s: PmScheduler.Report ::
                r.start == s.start && r.end == s.end ==> ContentOf(valueSet, r) == ContentOf(valueSet, s)
    {
    }

    /** The sleeps at the end of a turn: a second after a report, and a tenth of a second. */
    method Rest(clock: Clock, reported: bool, ghost slack: nat) returns (raised: bool)
      modifies clock
      ensures (raised, clock.Current()) == Sleeps(clock.env, old(clock.Current()), reported)
      ensures old(clock.now) <= clock.now
      ensures !raised && !StopSeen(clock) ==> old(clock.now) + (if reported then 1100 else 100) <= clock.now
      ensures Bounded(clock.env, slack) ==>
                && (!raised ==> clock.now <= old(clock.now) + (if reported then 1100 + 6 * slack else 100 + 3 * slack))
                && (2 * slack <= 100 ==> !raised)
    {
      if reported {
        var outcome := NapOnce(clock, 1000, slack);
        if outcome.NegativeSleep? {
          return true;
        }
      }
      var outcome := NapOnce(clock, 100, slack);
      raised := outcome.NegativeSleep?;
    }

    /** One sleep of at most a second that watches the global stop event only. */
    method NapOnce(clock: Clock, interval: nat, ghost slack: nat) returns (outcome: Outcome)
      requires 100 <= interval <= 1000
      modifies clock
      ensures (outcome, clock.Current()) == SaSleep(clock.env, old(clock.Current()), interval, false)
      ensures old(clock.now) <= clock.now && (old(StopSeen(clock)) ==> StopSeen(clock))
      ensures outcome.Elapsed? ==> old(clock.now) + interval <= clock.now
      ensures outcome.Interrupted? ==> StopSeen(clock)
      ensures Bounded(clock.env, slack) ==>
                && (!outcome.NegativeSleep? ==> clock.now <= old(clock.now) + interval + 3 * slack)
                && (2 * slack <= 100 ==> !outcome.NegativeSleep?)
    {
      ghost var before := clock.Current();
      outcome := clock.Sleep(interval, false);
      NeverEarly(clock.env, before, interval, false);
      if Bounded(clock.env, slack) {
        Timing(clock.env, slack, before, interval, false);
        if 2 * slack <= 100 {
          FitsWithinTwoReads(clock.env, slack, before, interval, false);
        }
      }
    }

    /** The turn raises before it has made its report. */
    predicate Fails(exit: Option<Exit>) {
      exit == Some(NoValues) || exit == Some(GenerateRaised)
    }

    /**
     The due half of a turn, up to the sending. It raises exactly when there is no value set, or the one that is
     due lacks a point or a point has no id, or the sending of this report raises.
     */
    method ReportTurn(clock: Clock, work: nat -> nat, sendRaises: nat -> bool, start: nat, index: int, ghost slack: nat,
                      ghost effort: nat)
      returns (exit: Option<Exit>, tick: PmScheduler.Tick, start': nat, index': int)
      requires logPeriod > 0 && repetitionPeriod >= 0 && -1 <= index
      modifies `reports, `texts, clock
      ensures tick.poll == old(clock.now) <= clock.now
      ensures exit == Some(NoValues) <==> values == []
      ensures exit == Some(GenerateRaised) <==>
                values != [] && !HasAll(values[PmScheduler.NextIndex(index, |values|)])
      ensures exit.Some? ==> exit.value in {NoValues, GenerateRaised, SendRaised}
      ensures exit == Some(SendRaised) <==> !Fails(exit) && sendRaises(|old(reports)|)
      ensures Fails(exit) ==>
                reports == old(reports) && texts == old(texts) + (if exit == Some(GenerateRaised) then [""] else [])
      ensures index' == PmScheduler.NextIndex(index, |values|)
      ensures !Fails(exit) ==>
        && PmScheduler.Ordered(tick) && tick.cleaned <= clock.now && 0 <= index' < |values|
        && clock.Current() == Sent(clock.env, work, old(clock.Current()))
        && tick == PmScheduler.Tick(old(clock.now), EndRead(clock.env, old(clock.Current())).now,
                                    Written(clock.env, work, old(clock.Current())).now,
                                    StartRead(clock.env, work, old(clock.Current())).now,
                                    Cleaned(clock.env, work, old(clock.Current())).now)
        && reports == old(reports) + [PmScheduler.ReportOf(tick, index', start)]
        && Showable(PmScheduler.ReportOf(tick, index', start))
        && texts == old(texts) + [TextOf(PmScheduler.ReportOf(tick, index', start))]
        && start' == PmScheduler.WholeSecond(tick.startRead)
        && (Delays(clock.env, work, slack, effort) ==> clock.now <= tick.poll + 3 * effort + 5 * slack)
    {
      hide HasAll, TextOf;
      tick, start' := PmScheduler.Tick(clock.now, clock.now, clock.now, clock.now, clock.now), start;
      index' := index + 1;
      if index' >= |values| {
        index' := 0;
      }
      if values == [] {
        return Some(NoValues), tick, start', index';
      }
      var failed;
      failed, tick := Generate(clock, work, clock.now, index', start, slack, effort);
      if failed {
        return Some(GenerateRaised), tick, start', index';
      }
      start' := tick.startRead / 1000 * 1000;
      clock.Access(work(clock.step));
      exit := if sendRaises(|reports| - 1) then Some(SendRaised) else None;
    }

    /** A turn that is due adds one report and its text, and the loop goes on from its start time and index. */
    ghost predicate Adds(before: seq<PmScheduler.Report>, beforeTexts: seq<string>, start: nat, index: int,
                         tick: PmScheduler.Tick, after: seq<PmScheduler.Report>, afterTexts: seq<string>, start': nat,
                         index': int)
      reads `logPeriod, `repetitionPeriod, `points, `pointsId, `template, `values
      requires logPeriod > 0 && repetitionPeriod >= 0
    {
      && start' == PmScheduler.StartAfter(logPeriod, start, tick)
      && index' == PmScheduler.IndexAfter(logPeriod, |values|, index, tick)
      && if PmScheduler.Due(logPeriod, tick) then
           && 0 <= index' < |values| && Showable(PmScheduler.ReportOf(tick, index', start))
           && after == before + [PmScheduler.ReportOf(tick, index', start)]
           && afterTexts == beforeTexts + [TextOf(PmScheduler.ReportOf(tick, index', start))]
         else after == before && afterTexts == beforeTexts
    }

    /**
     One turn of the loop. It completes, or an exception ends the run: exit then says which. The reports and
     texts grow by those of a due turn.
     */
    method Turn(clock: Clock, work: nat -> nat, sendRaises: nat -> bool, start: nat, index: int, ghost slack: nat,
                ghost effort: nat)
      returns (exit: Option<Exit>, tick: PmScheduler.Tick, start': nat, index': int)
      requires logPeriod > 0 && repetitionPeriod >= 0 && -1 <= index
      modifies `reports, `texts, clock
      ensures exit == Some(NoValues) <==> PmScheduler.Due(logPeriod, tick) && values == []
      ensures exit == Some(GenerateRaised) <==>
                PmScheduler.Due(logPeriod, tick) && values != []
                  && !HasAll(values[PmScheduler.NextIndex(index, |values|)])
      ensures Fails(exit) ==>
                reports == old(reports) && texts == old(texts) + (if exit == Some(GenerateRaised) then [""] else [])
      ensures old(clock.now) <= tick.poll == Read(clock.env, old(clock.Current())).now <= clock.now
      ensures exit == Some(SendRaised) <==>
                !Fails(exit) && PmScheduler.Due(logPeriod, tick) && sendRaises(|old(reports)|)
      ensures exit == Some(SleepRaised) <==>
                && !Fails(exit) && exit != Some(SendRaised)
                && SleepsOf(logPeriod, clock.env, work, Read(clock.env, old(clock.Current()))).0
      ensures exit.None? ==>
                clock.Current() == SleepsOf(logPeriod, clock.env, work, Read(clock.env, old(clock.Current()))).1
      ensures !Fails(exit) ==>
        && PmScheduler.Ordered(tick)
           && tick == TickAt(logPeriod, clock.env, work, Read(clock.env, old(clock.Current())))
        && Adds(old(reports), old(texts), start, index, tick, reports, texts, start', index')
        && (Bounded(clock.env, slack) ==> tick.poll <= old(clock.now) + slack)
      ensures exit.None? ==> old(clock.now) < clock.now || StopSeen(clock)
      ensures exit.None? && !StopSeen(clock) ==> Spaced(clock.now, tick)
      ensures exit.None? ==> InTime(clock.env, clock.now, work, slack, effort, tick)
      ensures exit.Some? ==> exit.value in {NoValues, GenerateRaised, SendRaised, SleepRaised}
      ensures Bounded(clock.env, slack) && 2 * slack <= 100 ==> exit != Some(SleepRaised)
    {
      hide HasAll, TextOf, Showable, EndRead, Written, StartRead, Cleaned, Sent, Sleeps, Bounded;
      PaceIsBounded(clock.env, work, slack, effort);
      PauseTakes(clock.env, clock.Current(), 0, slack);
      clock.Access(0);
      var poll := clock.now;
      tick, start', index' := PmScheduler.Tick(poll, poll, poll, poll, poll), start, index;
      var due := poll / 1000 % logPeriod == 0;
      if due {
        exit, tick, start', index' := ReportTurn(clock, work, sendRaises, start, index, slack, effort);
        if exit.Some? {
          return;
        }
      }
      var raised := Rest(clock, due, slack);
      exit := if raised then Some(SleepRaised) else None;
    }

    /** Every report was written with the text of its value set. */
    ghost predicate TextsFit(rs: seq<PmScheduler.Report>, texts: seq<string>)
      reads `logPeriod, `repetitionPeriod, `points, `pointsId, `template, `values
      requires logPeriod >= 0 && repetitionPeriod >= 0
    {
      |texts| == |rs| && forall k :: 0 <= k < |rs| ==> Showable(rs[k]) && texts[k] == TextOf(rs[k])
    }

    /** The value set that is due for report k can be shown. */
    predicate SetReady(k: nat)
      reads `values, `points, `pointsId
    {
      values != [] && HasAll(values[k % |values|])
    }

    /** The reports show the value sets in turn, and one is due next. */
    lemma IndicesFollow(p: nat, start: nat, ticks: seq<PmScheduler.Tick>)
      requires p > 0 && values != []
      ensures var n, rs := |values|, PmScheduler.Reports(p, |values|, start, -1, ticks);
              && -1 <= PmScheduler.RunIndex(p, n, -1, ticks)
              && PmScheduler.NextIndex(PmScheduler.RunIndex(p, n, -1, ticks), n) == |rs| % n
              && forall k :: 0 <= k < |rs| ==> rs[k].valueIndex == k % n
    {
      PmScheduler.IndexCounts(p, |values|, start, -1, ticks);
      PmScheduler.ReportsCycle(p, |values|, start, -1, ticks);
    }

    /** What the run shows: report k the value set k modulo their number, which has all points. */
    ghost predicate ShowsInTurn()
      reads `logPeriod, `repetitionPeriod, `points, `pointsId, `template, `values, `reports, `texts
      requires logPeriod >= 0 && repetitionPeriod >= 0
    {
      && |reports| <= |texts| && TextsFit(reports, texts[..|reports|])
      && forall k :: 0 <= k < |reports| ==> SetReady(k) && reports[k].valueIndex == k % |values|
    }

    /** Every boundary whose second begins after the start and is over before a flag is up has its report. */
    ghost predicate AllReported(env: Env, slack: nat, startTime: nat)
      requires logPeriod > 0
      reads `logPeriod, `reports
    {
      forall b: nat :: b % logPeriod == 0 && startTime + slack <= 1000 * b && !FlagBefore(env, 1000 * (b + 1)) ==>
        PmScheduler.ReportedAt(reports, b)
    }

    lemma NothingMissed(clock: Clock, work: nat -> nat, slack: nat, effort: nat, startTime: nat,
                        ticks: seq<PmScheduler.Tick>)
      requires logPeriod > 0 && StopSeen(clock) && PmScheduler.Paced(logPeriod, ticks)
      requires reports == PmScheduler.Reports(logPeriod, |values|, startTime, -1, ticks)
      requires Pace(clock.env, work, slack, effort)
      requires if ticks == [] then clock.now == startTime
               else ticks[0].poll <= startTime + slack
                    && InTime(clock.env, clock.now, work, slack, effort, ticks[|ticks|-1])
      ensures AllReported(clock.env, slack, startTime)
    {
      forall b: nat | b % logPeriod == 0 && startTime + slack <= 1000 * b && !FlagBefore(clock.env, 1000 * (b + 1))
        ensures PmScheduler.ReportedAt(reports, b)
      {
        assert 1000 * (b + 1) <= clock.now;
        PmScheduler.BoundariesAreReported(logPeriod, |values|, startTime, -1, ticks, b);
      }
    }

    /** No send of the first n reports raises. */
    ghost predicate Delivered(sendRaises: nat -> bool, n: int) {
      forall k :: 0 <= k < n ==> !sendRaises(k)
    }

    /** A due turn was begun after these, and failed before its report. */
    ghost predicate FailedTurn(now: nat, startTime: nat, ticks: seq<PmScheduler.Tick>)
      requires logPeriod > 0
      reads `logPeriod
    {
      exists failed: PmScheduler.Tick ::
        && PmScheduler.Due(logPeriod, failed) && startTime <= failed.poll <= now
        && (ticks != [] ==> ticks[|ticks|-1].cleaned < failed.poll)
    }

    /** The exceptions that nothing causes do not happen, so the run goes on until a flag is seen. */
    ghost predicate NothingRaises(env: Env, sendRaises: nat -> bool, slack: nat)
      reads `logPeriod, `values, `points, `pointsId
    {
      && logPeriod > 0 && values != [] && AllReady()
      && (forall k :: !sendRaises(k)) && Bounded(env, slack) && slack <= 50
    }

    /** What the loop has made: it is in step with the turns, and the turns with the clock. */
    ghost predicate Track(q: Progress, env: Env, work: nat -> nat, slack: nat, effort: nat)
      requires logPeriod > 0 && repetitionPeriod >= 0
      reads `logPeriod, `repetitionPeriod, `points, `pointsId, `template, `values
    {
      && -1 <= q.index == PmScheduler.RunIndex(logPeriod, |values|, -1, q.ticks)
      && q.start == PmScheduler.RunStart(logPeriod, q.startTime, q.ticks)
      && q.reports == PmScheduler.Reports(logPeriod, |values|, q.startTime, -1, q.ticks)
      && TextsFit(q.reports, q.texts) && PmScheduler.Monotone(logPeriod, q.ticks) && q.startTime <= q.now
      && (Pace(env, work, slack, effort) ==> PmScheduler.Paced(logPeriod, q.ticks))
      && (q.ticks != [] ==>
            q.startTime <= q.ticks[0].poll && (Bounded(env, slack) ==> q.ticks[0].poll <= q.startTime + slack))
    }

    /** Nothing has raised so far, and with small delays it is not too late for the next turn. */
    ghost predicate Going(q: Progress, env: Env, work: nat -> nat, sendRaises: nat -> bool, slack: nat, effort: nat)
      requires logPeriod > 0
      reads `logPeriod
    {
      && Delivered(sendRaises, |q.reports|)
      && if q.ticks == [] then q.now == q.startTime
         else InTime(env, q.now, work, slack, effort, q.ticks[|q.ticks|-1])
    }

    /** An exception ended the run here, for this reason. */
    ghost predicate Caused(exit: Exit, q: Progress, env: Env, now: nat, work: nat -> nat, sendRaises: nat -> bool,
                           texts: seq<string>)
      requires logPeriod > 0
      reads `logPeriod, `values, `points, `pointsId
    {
      match exit
      case NoValues =>
        values == [] && FailedTurn(now, q.startTime, q.ticks) && Delivered(sendRaises, |q.reports|) && texts == q.texts
      case GenerateRaised =>
        && values != [] && -1 <= q.index && !HasAll(values[PmScheduler.NextIndex(q.index, |values|)])
        && FailedTurn(now, q.startTime, q.ticks) && Delivered(sendRaises, |q.reports|) && texts == q.texts + [""]
      case SendRaised =>
        && q.reports != [] && sendRaises(|q.reports| - 1) && Delivered(sendRaises, |q.reports| - 1)
        && texts == q.texts
      case SleepRaised =>
        && q.ticks != [] && SleepFails(logPeriod, env, work, q.ticks[|q.ticks|-1])
        && Delivered(sendRaises, |q.reports|) && texts == q.texts
      case _ => false
    }

    lemma NothingMadeYet(q: Progress, env: Env, work: nat -> nat, sendRaises: nat -> bool, slack: nat, effort: nat)
      requires logPeriod > 0 && repetitionPeriod >= 0
      requires q == Progress(q.startTime, [], [], [], q.startTime, -1, q.startTime)
      ensures Track(q, env, work, slack, effort) && Going(q, env, work, sendRaises, slack, effort)
    {
    }

    /** A turn that has come to its report, or was not due, takes the run further. */
    lemma TurnMade(q: Progress, q': Progress, env: Env, work: nat -> nat, slack: nat, effort: nat,
                   tick: PmScheduler.Tick)
      requires logPeriod > 0 && repetitionPeriod >= 0 && Track(q, env, work, slack, effort)
      requires q.ticks != [] ==>
                 && Spaced(q.now, q.ticks[|q.ticks|-1])
                 && InTime(env, q.now, work, slack, effort, q.ticks[|q.ticks|-1])
      requires q.ticks == [] ==> q.now == q.startTime
      requires Adds(q.reports, q.texts, q.start, q.index, tick, q'.reports, q'.texts, q'.start, q'.index)
      requires q'.startTime == q.startTime && q'.ticks == q.ticks + [tick]
      requires PmScheduler.Ordered(tick) && q.now <= tick.poll <= q'.now
      requires Bounded(env, slack) ==> tick.poll <= q.now + slack
      ensures Track(q', env, work, slack, effort)
      ensures |q'.reports| == |q.reports| + (if PmScheduler.Due(logPeriod, tick) then 1 else 0)
    {
      hide TextOf, Showable, Bounded, PmScheduler.Due, PmScheduler.PolledUntil, PmScheduler.Monotone, PmScheduler.Paced;
      PaceIsBounded(env, work, slack, effort);
      PmScheduler.OneMoreTurn(logPeriod, |values|, q.startTime, -1, q.ticks, tick);
      SpacedMeans(q, tick);
      PmScheduler.OneMoreTick(logPeriod, q.ticks, tick);
      TextsStillFit(q.reports, q.texts, q'.reports, q'.texts, tick, q.start, q'.index);
    }

    lemma SpacedMeans(q: Progress, tick: PmScheduler.Tick)
      requires logPeriod > 0 && (q.ticks != [] ==> Spaced(q.now, q.ticks[|q.ticks|-1])) && q.now <= tick.poll
      ensures q.ticks != [] ==>
                var last := q.ticks[|q.ticks|-1];
                last.cleaned + (if PmScheduler.Due(logPeriod, last) then 1100 else 100) <= tick.poll
    {
    }

    lemma TextsStillFit(before: seq<PmScheduler.Report>, beforeTexts: seq<string>, after: seq<PmScheduler.Report>,
                        afterTexts: seq<string>, tick: PmScheduler.Tick, start: nat, index': int)
      requires logPeriod > 0 && repetitionPeriod >= 0 && TextsFit(before, beforeTexts)
      requires if PmScheduler.Due(logPeriod, tick) then
                 && 0 <= index' < |values| && Showable(PmScheduler.ReportOf(tick, index', start))
                 && after == before + [PmScheduler.ReportOf(tick, index', start)]
                 && afterTexts == beforeTexts + [TextOf(PmScheduler.ReportOf(tick, index', start))]
               else after == before && afterTexts == beforeTexts
      ensures TextsFit(after, afterTexts)
    {
      hide TextOf, Showable, PmScheduler.Due, PmScheduler.ReportOf;
    }

    /** When neither its sending nor one of its sleeps raises, the loop goes on. */
    lemma GoesOn(q: Progress, q': Progress, env: Env, work: nat -> nat, sendRaises: nat -> bool,
        slack: nat, effort: nat,
                 tick: PmScheduler.Tick)
      requires logPeriod > 0 && Going(q, env, work, sendRaises, slack, effort) && q'.ticks == q.ticks + [tick]
      requires |q'.reports| == |q.reports| + (if PmScheduler.Due(logPeriod, tick) then 1 else 0)
      requires PmScheduler.Due(logPeriod, tick) ==> !sendRaises(|q.reports|)
      ensures Delivered(sendRaises, |q'.reports|)
      ensures InTime(env, q'.now, work, slack, effort, tick) ==> Going(q', env, work, sendRaises, slack, effort)
    {
    }

    lemma TurnFails(exit: Exit, q: Progress, env: Env, now: nat, work: nat -> nat, sendRaises: nat -> bool, slack: nat,
                    effort: nat, tick: PmScheduler.Tick, texts: seq<string>)
      requires logPeriod > 0 && Going(q, env, work, sendRaises, slack, effort) && -1 <= q.index
      requires PmScheduler.Due(logPeriod, tick) && q.startTime <= q.now <= tick.poll <= now
      requires q.ticks != [] ==> Spaced(q.now, q.ticks[|q.ticks|-1])
      requires exit.NoValues? || exit.GenerateRaised?
      requires if values == [] then exit.NoValues? && texts == q.texts
               else
                 && exit.GenerateRaised? && texts == q.texts + [""]
                 && !HasAll(values[PmScheduler.NextIndex(q.index, |values|)])
      ensures Caused(exit, q, env, now, work, sendRaises, texts)
    {
      hide HasAll;
    }

    lemma SendFails(q: Progress, q': Progress, env: Env, now: nat, work: nat -> nat,
        sendRaises: nat -> bool, slack: nat,
                    effort: nat)
      requires logPeriod > 0 && Going(q, env, work, sendRaises, slack, effort)
      requires |q'.reports| == |q.reports| + 1 && sendRaises(|q.reports|)
      ensures Caused(SendRaised, q', env, now, work, sendRaises, q'.texts)
    {
    }

    lemma SleepFailed(q: Progress, env: Env, now: nat, work: nat -> nat, sendRaises: nat -> bool, poll: Moment)
      requires logPeriod > 0 && Delivered(sendRaises, |q.reports|)
      requires q.ticks != [] && q.ticks[|q.ticks|-1] == TickAt(logPeriod, env, work, poll)
      requires SleepsOf(logPeriod, env, work, poll).0
      ensures Caused(SleepRaised, q, env, now, work, sendRaises, q.texts)
    {
    }

    /** Why an exit was taken: a flag was seen, or an exception has its cause. */
    ghost predicate Explained(exit: Exit, clock: Clock, work: nat -> nat, sendRaises: nat -> bool, startTime: nat,
                              ticks: seq<PmScheduler.Tick>)
      requires logPeriod > 0
      reads this, clock
    {
      match exit
      case Stopped => StopSeen(clock) && Delivered(sendRaises, |reports|)
      case NoValues => values == [] && FailedTurn(clock.now, startTime, ticks)
      case GenerateRaised => values != [] && !SetReady(|reports|) && FailedTurn(clock.now, startTime, ticks)
      case SendRaised =>
        reports != [] && sendRaises(|reports| - 1) && Delivered(sendRaises, |reports| - 1)
      case SleepRaised =>
        && ticks != [] && SleepFails(logPeriod, clock.env, work, ticks[|ticks|-1])
        && Delivered(sendRaises, |reports|)
      case NoPeriod => false
    }

    lemma ShownInTurn(q: Progress, env: Env, work: nat -> nat, slack: nat, effort: nat)
      requires logPeriod > 0 && repetitionPeriod >= 0 && Track(q, env, work, slack, effort)
      requires q.reports == reports && q.texts <= texts
      ensures ShowsInTurn() && texts[|reports|..] == texts[|q.texts|..] && |q.texts| == |reports|
      ensures values != [] && -1 <= q.index && !HasAll(values[PmScheduler.NextIndex(q.index, |values|)]) ==>
                !SetReady(|reports|) && !AllReady()
    {
      hide HasAll, TextOf;
      assert texts[..|reports|] == q.texts;
      if reports != [] {
        assert Showable(reports[0]);
      }
      if values != [] {
        IndicesFollow(logPeriod, q.startTime, q.ticks);
      }
      forall k | 0 <= k < |reports|
        ensures SetReady(k) && reports[k].valueIndex == k % |values|
      {
        assert Showable(reports[k]);
      }
    }

    lemma RunIsExplained(exit: Exit, q: Progress, clock: Clock, work: nat -> nat, sendRaises: nat -> bool, slack: nat,
                         effort: nat)
      requires logPeriod > 0 && repetitionPeriod >= 0 && q.reports == reports
      requires Track(q, clock.env, work, slack, effort)
      requires if exit.Stopped? then
                 && StopSeen(clock) && q.now == clock.now && q.texts == texts
                 && Going(q, clock.env, work, sendRaises, slack, effort)
               else Caused(exit, q, clock.env, clock.now, work, sendRaises, texts)
      ensures Explained(exit, clock, work, sendRaises, q.startTime, q.ticks)
      ensures ShowsInTurn() && texts[|reports|..] == (if exit.GenerateRaised? then [""] else [])
      ensures exit.GenerateRaised? ==> !AllReady()
      ensures exit.Stopped? && Pace(clock.env, work, slack, effort) ==> AllReported(clock.env, slack, q.startTime)
    {
      hide HasAll, AllReady, SetReady, FailedTurn, SleepFails, Delivered, InTime, AllReported, ShowsInTurn, TextsFit;
      ShownInTurn(q, clock.env, work, slack, effort);
      PaceIsBounded(clock.env, work, slack, effort);
      if exit.Stopped? && Pace(clock.env, work, slack, effort) {
        NothingMissed(clock, work, slack, effort, q.startTime, q.ticks);
      }
    }

    lemma WithoutCauses(exit: Exit, clock: Clock, work: nat -> nat, sendRaises: nat -> bool, slack: nat, startTime: nat,
                        ticks: seq<PmScheduler.Tick>)
      requires logPeriod > 0 && Explained(exit, clock, work, sendRaises, startTime, ticks)
      requires NothingRaises(clock.env, sendRaises, slack) && !exit.SleepRaised?
      ensures exit.Stopped?
    {
    }

    /**
     performance_management_task. The run ends when a stop flag is seen or an exception kills the thread;
     sendRaises says for which reports the sending raises. At every exit the reports are those of the turns
     made, the turns are in order, and with bounded delays they are paced for the period. Report k has the text of
     value set k modulo their number. Every exception has its cause; without one, the run goes on until it sees a
     flag, and then has reported every boundary until that flag was up.
     */
    method Task(clock: Clock, work: nat -> nat, sendRaises: nat -> bool, ghost slack: nat, ghost effort: nat)
      returns (exit: Exit, ghost ticks: seq<PmScheduler.Tick>, ghost startTime: nat)
      requires logPeriod >= 0 && repetitionPeriod >= 0 && reports == [] && texts == [] && clock.env.stop.At?
      modifies `reports, `texts, clock
      ensures startTime == Read(clock.env, old(clock.Current())).now
      ensures logPeriod == 0 ==>
                reports == [] && texts == [] && ticks == [] && exit == if StopSeen(clock) then Stopped else NoPeriod
      ensures logPeriod > 0 ==>
        && reports == PmScheduler.Reports(logPeriod, |values|, startTime, -1, ticks)
        && PmScheduler.Monotone(logPeriod, ticks)
        && (ticks != [] ==> startTime <= ticks[0].poll)
        && (Pace(clock.env, work, slack, effort) ==> PmScheduler.Paced(logPeriod, ticks))
        && Explained(exit, clock, work, sendRaises, startTime, ticks)
      ensures ShowsInTurn() && texts[|reports|..] == (if exit.GenerateRaised? then [""] else [])
      ensures AllReady() ==> !exit.GenerateRaised?
      ensures Bounded(clock.env, slack) && slack <= 50 ==> !exit.SleepRaised?
      ensures NothingRaises(clock.env, sendRaises, slack) ==> exit.Stopped?
      ensures exit.Stopped? && logPeriod > 0 && Pace(clock.env, work, slack, effort) ==>
                AllReported(clock.env, slack, startTime)
    {
      hide Track, Going, Caused, Explained, ShowsInTurn, AllReady, NothingRaises, Pace, Read, Pause,
           AllReported, Bounded;
      PauseTakes(clock.env, clock.Current(), 0, slack);
      NothingRaisesIsBounded(clock.env, sendRaises, slack);
      clock.Access(0);
      startTime, ticks := clock.now, [];
      if logPeriod == 0 {
        NothingShown();
        return if Passed(clock.env.stop, clock.Current()) || Passed(clock.env.extra, clock.Current())
          then Stopped else NoPeriod,
          ticks, startTime;
      }
      ghost var last;
      exit, last := Loop(clock, work, sendRaises, slack, effort);
      ticks := last.ticks;
      TrackMeans(last, clock.env, work, slack, effort);
      RunIsExplained(exit, last, clock, work, sendRaises, slack, effort);
      if NothingRaises(clock.env, sendRaises, slack) {
        WithoutCauses(exit, clock, work, sendRaises, slack, startTime, ticks);
      }
    }

    lemma NothingRaisesIsBounded(env: Env, sendRaises: nat -> bool, slack: nat)
      ensures NothingRaises(env, sendRaises, slack) ==> logPeriod > 0 && Bounded(env, slack) && slack <= 50
    {
    }

    lemma NothingShown()
      requires logPeriod >= 0 && repetitionPeriod >= 0 && reports == [] && texts == []
      ensures ShowsInTurn()
    {
    }

    lemma TrackMeans(q: Progress, env: Env, work: nat -> nat, slack: nat, effort: nat)
      requires logPeriod > 0 && repetitionPeriod >= 0 && Track(q, env, work, slack, effort)
      ensures q.reports == PmScheduler.Reports(logPeriod, |values|, q.startTime, -1, q.ticks)
      ensures PmScheduler.Monotone(logPeriod, q.ticks) && (q.ticks != [] ==> q.startTime <= q.ticks[0].poll)
      ensures Pace(env, work, slack, effort) ==> PmScheduler.Paced(logPeriod, q.ticks)
      ensures -1 <= q.index && q.startTime <= q.now
    {
    }

    lemma GoingMeans(q: Progress, env: Env, work: nat -> nat, sendRaises: nat -> bool, slack: nat, effort: nat)
      requires logPeriod > 0 && Going(q, env, work, sendRaises, slack, effort)
      ensures if q.ticks == [] then q.now == q.startTime
              else InTime(env, q.now, work, slack, effort, q.ticks[|q.ticks|-1])
    {
    }

    /** The while loop. */
    method Loop(clock: Clock, work: nat -> nat, sendRaises: nat -> bool, ghost slack: nat, ghost effort: nat)
      returns (exit: Exit, ghost last: Progress)
      requires logPeriod > 0 && repetitionPeriod >= 0 && reports == [] && texts == [] && clock.env.stop.At?
      modifies `reports, `texts, clock
      ensures last.startTime == old(clock.now) && last.reports == reports
      ensures Track(last, clock.env, work, slack, effort)
      ensures if exit.Stopped? then
                && StopSeen(clock) && last.now == clock.now && last.texts == texts
                && Going(last, clock.env, work, sendRaises, slack, effort)
              else Caused(exit, last, clock.env, clock.now, work, sendRaises, texts)
      ensures Bounded(clock.env, slack) && slack <= 50 ==> exit != SleepRaised
    {
      hide Track, Going, Caused, Adds, Pace, Read, HasAll, InTime, Spaced, PmScheduler.Due, Bounded, TickAt, SleepsOf;
      var start, index := clock.now, -1;
      last := Progress(clock.now, [], [], [], start, index, clock.now);
      NothingMadeYet(last, clock.env, work, sendRaises, slack, effort);
      while !(Passed(clock.env.stop, clock.Current()) || Passed(clock.env.extra, clock.Current()))
        invariant last == Progress(old(clock.now), last.ticks, reports, texts, start, index, clock.now)
        invariant Track(last, clock.env, work, slack, effort)
        invariant Going(last, clock.env, work, sendRaises, slack, effort)
        invariant last.ticks != [] && !StopSeen(clock) ==> Spaced(clock.now, last.ticks[|last.ticks|-1])
        decreases clock.env.stop.ms - clock.now
      {
        ghost var poll := Read(clock.env, clock.Current());
        TrackMeans(last, clock.env, work, slack, effort);
        GoingMeans(last, clock.env, work, sendRaises, slack, effort);
        var ended, tick, start', index' := Turn(clock, work, sendRaises, start, index, slack, effort);
        if Fails(ended) {
          TurnFails(ended.value, last, clock.env, clock.now, work, sendRaises, slack, effort, tick, texts);
          return ended.value, last;
        }
        ghost var after := Progress(last.startTime, last.ticks + [tick], reports, texts, start', index', clock.now);
        TurnMade(last, after, clock.env, work, slack, effort, tick);
        if ended == Some(SendRaised) {
          SendFails(last, after, clock.env, clock.now, work, sendRaises, slack, effort);
          return SendRaised, after;
        }
        GoesOn(last, after, clock.env, work, sendRaises, slack, effort, tick);
        last, start, index := after, start', index';
        if ended == Some(SleepRaised) {
          SleepFailed(last, clock.env, clock.now, work, sendRaises, poll);
          return SleepRaised, last;
        }
      }
      exit := Stopped;
    }

    lemma PaceIsBounded(env: Env, work: nat -> nat, slack: nat, effort: nat)
      ensures Pace(env, work, slack, effort) ==> Bounded(env, slack) && Delays(env, work, slack, effort)
    {
    }
  }
}
