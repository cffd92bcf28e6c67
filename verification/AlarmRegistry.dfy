/**
 The internal alarm list as a value: what each kind of event does to it, and what no sequence of
 events can break (sections 3.4 and 3.5.1 of RFC 8632). Instants are microseconds.
 */
module AlarmRegistry {
  import opened Strings

  datatype Severity = Cleared | Indeterminate | Warning | Minor | Major | Critical

  /** An attribute of a Python object that may not have been assigned yet, or hold None. */
  datatype SeverityAttr = Missing | Null | Known(severity: Severity)

  datatype Alarm = Alarm(resource: string, typeId: string, qualifier: string,
                         timesRaised: nat, timesCleared: nat,
                         isCleared: Option<bool>, severity: SeverityAttr, text: Option<string>,
                         created: Option<int>, lastRaised: Option<int>, lastChanged: Option<int>)

  datatype Registry = Registry(alarms: map<string, Alarm>, lastChanged: int)

  /** The body of an alarm-notification, as used by the alarm steps; every leaf but the key may be absent. */
  datatype Notif = Notif(resource: string, typeId: string, qualifier: string,
                         time: Option<int>, severity: Option<string>, isCleared: Option<bool>, text: Option<string>)

  datatype Times = Times(created: int, lastRaised: int, lastChanged: int)

  /** An entry of the alarm list in the datastore. */
  datatype Entry = Entry(resource: string, typeId: string, qualifier: string,
                         isCleared: bool, severity: string, text: string, times: Option<Times>)

  datatype Outcome = Applied | ValueError | AttributeError

  /** The combined id is a plain concatenation. */
  function CombinedId(resource: string, typeId: string, qualifier: string): string {
    resource + typeId + qualifier
  }

  function IdOf(a: Alarm): string {
    CombinedId(a.resource, a.typeId, a.qualifier)
  }

  function NewAlarm(resource: string, typeId: string, qualifier: string): Alarm {
    Alarm(resource, typeId, qualifier, 0, 0, None, Missing, None, None, None, None)
  }

  function SeverityText(s: Severity): string {
    match s
    case Cleared => "cleared"
    case Indeterminate => "indeterminate"
    case Warning => "warning"
    case Minor => "minor"
    case Major => "major"
    case Critical => "critical"
  }

  function ParseSeverity(s: string): Option<Severity> {
    if s == "cleared" then Some(Cleared)
    else if s == "indeterminate" then Some(Indeterminate)
    else if s == "warning" then Some(Warning)
    else if s == "minor" then Some(Minor)
    else if s == "major" then Some(Major)
    else if s == "critical" then Some(Critical)
    else None
  }

  lemma SeverityRoundTrip(s: Severity)
    ensures ParseSeverity(SeverityText(s)) == Some(s)
  {
    assert "cleared"[0] == 'c' && "indeterminate"[0] == 'i' && "warning"[0] == 'w' && "minor"[1] == 'i'
           && "major"[1] == 'a' && "critical"[1] == 'r';
    assert "cleared"[1] == 'l' && "minor"[0] == 'm' && "major"[0] == 'm' && "critical"[0] == 'c';
  }

  /** replace(microsecond=0) */
  function WholeSecond(t: int): int {
    t - t % 1_000_000
  }

  function Max(a: int, b: int): int {
    if a < b then b else a
  }

  // ---------- from_ietf_alarm_notif ----------

  /** The severity part: is_cleared is set before the severity is looked at. */
  function WithSeverity(a: Alarm, severity: Option<string>, time: int): (Outcome, Alarm) {
    if severity.None? then (Applied, a)
    else
      var b := a.(isCleared := Some(false));
      match ParseSeverity(severity.value)
      case None => (ValueError, b)
      case Some(Cleared) =>
        (match b.severity
         case Missing => (AttributeError, b)
         case Null => (Applied, b.(severity := Known(Indeterminate), isCleared := Some(true)))
         case Known(_) => (Applied, b.(isCleared := Some(true))))
      case Some(s) => (Applied, b.(severity := Known(s), lastRaised := Some(time)))
  }

  /** The remaining leaves, the time of the change, and the counter. */
  function WithRest(a: Alarm, n: Notif, time: int): (Outcome, Alarm) {
    var b := a.(isCleared := if n.isCleared.Some? then n.isCleared else a.isCleared,
                text := if n.text.Some? then n.text else a.text,
                lastChanged := Some(time));
    if b.isCleared.None? then (AttributeError, b) else (Applied, Counted(b))
  }

  function Counted(a: Alarm): Alarm
    requires a.isCleared.Some?
  {
    if a.isCleared.value then a.(timesCleared := a.timesCleared + 1) else a.(timesRaised := a.timesRaised + 1)
  }

  function NotifId(n: Notif): string {
    CombinedId(n.resource, n.typeId, n.qualifier)
  }

  function NotifTime(n: Notif, now: int): int {
    if n.time.Some? then n.time.value else now
  }

  /** The registered alarm the notification is about; a new one carries its times already. */
  function Target(reg: Registry, n: Notif, time: int): Alarm {
    if NotifId(n) in reg.alarms then reg.alarms[NotifId(n)]
    else NewAlarm(n.resource, n.typeId, n.qualifier).(created := Some(time), lastRaised := Some(time))
  }

  function Updated(a: Alarm, n: Notif, time: int): (Outcome, Alarm) {
    var (o, b) := WithSeverity(a, n.severity, time);
    if o.Applied? then WithRest(b, n, time) else (o, b)
  }

  /** on_alarm_change: the list's last-changed follows the latest change. */
  function Stored(reg: Registry, id: string, o: Outcome, a: Alarm): Registry {
    Registry(reg.alarms[id := a],
             if o.Applied? && a.lastChanged.Some? then Max(reg.lastChanged, a.lastChanged.value) else reg.lastChanged)
  }

  /** When the update raises, the half-updated alarm stays in the list. */
  function ApplyNotif(reg: Registry, n: Notif, now: int): (Outcome, Registry) {
    var time := NotifTime(n, now);
    var (o, a) := Updated(Target(reg, n, time), n, time);
    (o, Stored(reg, NotifId(n), o, a))
  }

  // ---------- from_ietf_alarm ----------

  function EntryId(e: Entry): string {
    CombinedId(e.resource, e.typeId, e.qualifier)
  }

  function EntryTimes(e: Entry, now: int): Times {
    if e.times.Some? then e.times.value else Times(now, now, now)
  }

  function Loaded(a: Alarm, e: Entry, now: int): (Outcome, Alarm) {
    var b := a.(isCleared := Some(e.isCleared));
    match ParseSeverity(e.severity)
    case None => (ValueError, b)
    case Some(s) =>
      var t := EntryTimes(e, now);
      (Applied, Counted(b.(severity := Known(s), text := Some(e.text), created := Some(t.created),
                           lastRaised := Some(t.lastRaised), lastChanged := Some(t.lastChanged))))
  }

  function ApplyEntry(reg: Registry, e: Entry, now: int): (Outcome, Registry) {
    var listed := if EntryId(e) in reg.alarms then reg.alarms[EntryId(e)]
                  else NewAlarm(e.resource, e.typeId, e.qualifier);
    var (o, a) := Loaded(listed, e, now);
    (o, Stored(reg, EntryId(e), o, a))
  }

  // ---------- alarm_raise, alarm_clear, counters_clear ----------

  /** Raising an alarm that is not cleared does nothing; the severity "cleared" is refused. */
  function Raised(a: Alarm, severity: Option<Severity>, now: int): (Outcome, Alarm) {
    if a.isCleared.None? then (AttributeError, a)
    else if !a.isCleared.value then (Applied, a)
    else if severity == Some(Cleared) then (ValueError, a)
    else (Applied, Counted(a.(severity := if severity.Some? then Known(severity.value) else a.severity,
                              isCleared := Some(false), lastChanged := Some(now), lastRaised := Some(now))))
  }

  function Lowered(a: Alarm, now: int): (Outcome, Alarm) {
    if a.isCleared.None? then (AttributeError, a)
    else if a.isCleared.value then (Applied, a)
    else (Applied, Counted(a.(isCleared := Some(true), lastChanged := Some(now))))
  }

  /** Only an alarm that really changed is reported to the list. */
  function Reported(reg: Registry, id: string, r: (Outcome, Alarm)): (Outcome, Registry)
    requires id in reg.alarms
  {
    (r.0, if r.1 == reg.alarms[id] then reg else Stored(reg, id, r.0, r.1))
  }

  function ApplyRaise(reg: Registry, id: string, severity: Option<Severity>, now: int): (Outcome, Registry)
    requires id in reg.alarms
  {
    Reported(reg, id, Raised(reg.alarms[id], severity, now))
  }

  function ApplyClear(reg: Registry, id: string, now: int): (Outcome, Registry)
    requires id in reg.alarms
  {
    Reported(reg, id, Lowered(reg.alarms[id], now))
  }

  function Zeroed(a: Alarm): Alarm {
    a.(timesRaised := 0, timesCleared := 0)
  }

  function ApplyReset(reg: Registry): Registry {
    reg.(alarms := map k | k in reg.alarms :: Zeroed(reg.alarms[k]))
  }

  // ---------- events ----------

  datatype Event =
    | Notify(n: Notif, now: int)
    | Load(e: Entry, now: int)
    | Raise(id: string, severity: Option<Severity>, now: int)
    | Clear(id: string, now: int)
    | ResetCounters

  /** Raising and clearing are operations of a listed alarm. */
  predicate Possible(reg: Registry, ev: Event) {
    (ev.Raise? || ev.Clear?) ==> ev.id in reg.alarms
  }

  function Apply(reg: Registry, ev: Event): (Outcome, Registry)
    requires Possible(reg, ev)
  {
    match ev
    case Notify(n, now) => ApplyNotif(reg, n, now)
    case Load(e, now) => ApplyEntry(reg, e, now)
    case Raise(id, s, now) => ApplyRaise(reg, id, s, now)
    case Clear(id, now) => ApplyClear(reg, id, now)
    case ResetCounters => (Applied, ApplyReset(reg))
  }

  /** What an event makes of the list; there is nobody to raise or clear an alarm that is not listed. */
  function Step(reg: Registry, ev: Event): Registry {
    if Possible(reg, ev) then Apply(reg, ev).1 else reg
  }

  /** The alarm an event changes, and when: nothing for the calls that find nothing to do, or fail. */
  function Change(reg: Registry, ev: Event): Option<(string, int)> {
    if !Possible(reg, ev) || !Apply(reg, ev).0.Applied? then None
    else match ev
      case Notify(n, now) => Some((NotifId(n), NotifTime(n, now)))
      case Load(e, now) => Some((EntryId(e), EntryTimes(e, now).lastChanged))
      case Raise(id, _, now) => if reg.alarms[id].isCleared == Some(true) then Some((id, now)) else None
      case Clear(id, now) => if reg.alarms[id].isCleared == Some(false) then Some((id, now)) else None
      case ResetCounters => None
  }

  // ---------- what every event keeps ----------

  predicate Keyed(reg: Registry) {
    forall id :: id in reg.alarms ==> IdOf(reg.alarms[id]) == id
  }

  predicate NeverSeverityCleared(reg: Registry) {
    forall id :: id in reg.alarms ==> reg.alarms[id].severity != Known(Cleared)
  }

  /** No alarm of the list changed after the list did. */
  predicate Covered(reg: Registry) {
    forall id :: id in reg.alarms && reg.alarms[id].lastChanged.Some? ==>
        reg.alarms[id].lastChanged.value <= reg.lastChanged
  }

  predicate LoadsNoClearedSeverity(ev: Event) {
    ev.Load? ==> ev.e.severity != "cleared"
  }

  lemma StoredKeeps(reg: Registry, id: string, o: Outcome, a: Alarm)
    requires Keyed(reg) && IdOf(a) == id
    ensures Keyed(Stored(reg, id, o, a))
    ensures NeverSeverityCleared(reg) && a.severity != Known(Cleared) ==> NeverSeverityCleared(Stored(reg, id, o, a))
    ensures Covered(reg) && o.Applied? ==> Covered(Stored(reg, id, o, a))
  {}

  lemma NotifKeeps(reg: Registry, n: Notif, now: int)
    requires Keyed(reg)
    ensures var (o, reg') := ApplyNotif(reg, n, now);
            && Keyed(reg')
            && (NeverSeverityCleared(reg) ==> NeverSeverityCleared(reg'))
            && (Covered(reg) && o.Applied? ==> Covered(reg'))
  {
    var time := NotifTime(n, now);
    var (o, a) := Updated(Target(reg, n, time), n, time);
    StoredKeeps(reg, NotifId(n), o, a);
  }

  lemma EntryKeeps(reg: Registry, e: Entry, now: int)
    requires Keyed(reg)
    ensures var (o, reg') := ApplyEntry(reg, e, now);
            && Keyed(reg')
            && (NeverSeverityCleared(reg) && e.severity != "cleared" ==> NeverSeverityCleared(reg'))
            && (Covered(reg) && o.Applied? ==> Covered(reg'))
  {
    var (o, reg') := ApplyEntry(reg, e, now);
    StoredKeeps(reg, EntryId(e), o, reg'.alarms[EntryId(e)]);
  }

  /** Raising, clearing and resetting keep the list well-formed. */
  lemma OperationKeeps(reg: Registry, ev: Event)
    requires Possible(reg, ev) && Keyed(reg) && (ev.Raise? || ev.Clear? || ev.ResetCounters?)
    ensures var (o, reg') := Apply(reg, ev);
            && Keyed(reg')
            && (NeverSeverityCleared(reg) ==> NeverSeverityCleared(reg'))
            && (Covered(reg) && o.Applied? ==> Covered(reg'))
  {
  }

  lemma ApplyKeeps(reg: Registry, ev: Event)
    requires Possible(reg, ev) && Keyed(reg)
    ensures var (o, reg') := Apply(reg, ev);
            && Keyed(reg')
            && (NeverSeverityCleared(reg) && LoadsNoClearedSeverity(ev) ==> NeverSeverityCleared(reg'))
            && (Covered(reg) && o.Applied? ==> Covered(reg'))
  {
    match ev
    case Notify(n, now) => NotifKeeps(reg, n, now);
    case Load(e, now) => EntryKeeps(reg, e, now);
    case _ => OperationKeeps(reg, ev);
  }

  /** The identity of a listed alarm never changes, whatever triple an event with the same combined id carries. */
  lemma ApplyKeepsIdentity(reg: Registry, ev: Event, id: string)
    requires Possible(reg, ev) && id in reg.alarms
    ensures id in Apply(reg, ev).1.alarms
    ensures var a, b := reg.alarms[id], Apply(reg, ev).1.alarms[id];
            a.resource == b.resource && a.typeId == b.typeId && a.qualifier == b.qualifier
  {}

  // ---------- when different alarms share a combined id ----------

  function Triple(a: Alarm): (string, string, string) {
    (a.resource, a.typeId, a.qualifier)
  }

  /** Triples that share a combined id are the same exactly when their first two parts are equally long. */
  lemma SharedIdIff(x: (string, string, string), y: (string, string, string))
    requires CombinedId(x.0, x.1, x.2) == CombinedId(y.0, y.1, y.2)
    ensures x == y <==> |x.0| == |y.0| && |x.1| == |y.1|
  {
    if |x.0| == |y.0| && |x.1| == |y.1| {
      Parts(x);
      Parts(y);
    }
  }

  lemma Parts(x: (string, string, string))
    ensures var s, n, m := CombinedId(x.0, x.1, x.2), |x.0|, |x.0| + |x.1|;
            n <= m <= |s| && s[..n] == x.0 && s[n..m] == x.1 && s[m..] == x.2
  {
  }

  ghost predicate CanCollide(r1: string, t1: string, r2: string, t2: string) {
    exists q1: string, q2: string :: CombinedId(r1, t1, q1) == CombinedId(r2, t2, q2)
  }

  /** Some qualifiers make alarms of two resources and types collide exactly when one text begins with the other. */
  lemma CanCollideIff(r1: string, t1: string, r2: string, t2: string)
    ensures CanCollide(r1, t1, r2, t2) <==> Comparable(r1 + t1, r2 + t2)
  {
    var s, t := r1 + t1, r2 + t2;
    if CanCollide(r1, t1, r2, t2) {
      var q1, q2 :| CombinedId(r1, t1, q1) == CombinedId(r2, t2, q2);
      PrefixesCompare(s, q1, t, q2);
    }
    if s <= t {
      assert CombinedId(r1, t1, t[|s|..]) == t == CombinedId(r2, t2, "");
    }
    if t <= s {
      assert CombinedId(r1, t1, "") == s == CombinedId(r2, t2, s[|t|..]);
    }
  }

  predicate PrefixFree(texts: set<string>) {
    forall s, t :: s in texts && t in texts && s <= t ==> s == t
  }

  /** With resources and types of which none begins with another, a combined id belongs to one triple only. */
  lemma PrefixFreeNamesNeverCollide(resources: set<string>, types: set<string>, x: (string, string, string),
                                    y: (string, string, string))
    requires PrefixFree(resources) && PrefixFree(types)
    requires x.0 in resources && y.0 in resources && x.1 in types && y.1 in types
    ensures CombinedId(x.0, x.1, x.2) == CombinedId(y.0, y.1, y.2) <==> x == y
  {
    if CombinedId(x.0, x.1, x.2) == CombinedId(y.0, y.1, y.2) {
      Regroup(x);
      Regroup(y);
      PrefixesCompare(x.0, x.1 + x.2, y.0, y.1 + y.2);
      Parts(x);
      Parts(y);
      assert x.1 + x.2 == y.1 + y.2;
      PrefixesCompare(x.1, x.2, y.1, y.2);
    }
  }

  lemma Regroup(x: (string, string, string))
    ensures CombinedId(x.0, x.1, x.2) == x.0 + (x.1 + x.2)
    ensures CombinedId(x.0, x.1, x.2)[|x.0|..] == x.1 + x.2
  {
  }

  /** A notification goes to an alarm of another triple exactly when such an alarm is listed with its combined id. */
  lemma HitsAnotherAlarmIff(reg: Registry, n: Notif, now: int)
    requires Keyed(reg)
    ensures NotifId(n) in ApplyNotif(reg, n, now).1.alarms
    ensures Triple(ApplyNotif(reg, n, now).1.alarms[NotifId(n)]) != (n.resource, n.typeId, n.qualifier) <==>
              exists id :: id in reg.alarms && IdOf(reg.alarms[id]) == NotifId(n)
                           && (|reg.alarms[id].resource| != |n.resource| || |reg.alarms[id].typeId| != |n.typeId|)
  {
    var id := NotifId(n);
    var a := ApplyNotif(reg, n, now).1.alarms[id];
    assert Triple(a) == if id in reg.alarms then Triple(reg.alarms[id]) else (n.resource, n.typeId, n.qualifier);
    if id in reg.alarms {
      assert IdOf(reg.alarms[id]) == id;
      SharedIdIff(Triple(reg.alarms[id]), (n.resource, n.typeId, n.qualifier));
    }
  }

  function CountAt(reg: Registry, id: string): nat {
    if id in reg.alarms then reg.alarms[id].timesRaised + reg.alarms[id].timesCleared else 0
  }

  lemma UpdateCounts(a: Alarm, n: Notif, time: int)
    ensures var (o, b) := Updated(a, n, time);
            b.timesRaised + b.timesCleared == a.timesRaised + a.timesCleared + (if o.Applied? then 1 else 0)
  {
  }

  lemma NotifCounts(reg: Registry, n: Notif, now: int, id: string)
    ensures var (o, reg') := ApplyNotif(reg, n, now);
            CountAt(reg', id) == CountAt(reg, id) + (if o.Applied? && NotifId(n) == id then 1 else 0)
  {
    hide Updated;
    UpdateCounts(Target(reg, n, NotifTime(n, now)), n, NotifTime(n, now));
  }

  lemma EntryCounts(reg: Registry, e: Entry, now: int, id: string)
    ensures var (o, reg') := ApplyEntry(reg, e, now);
            CountAt(reg', id) == CountAt(reg, id) + (if o.Applied? && EntryId(e) == id then 1 else 0)
  {
  }

  lemma OperationCounts(reg: Registry, ev: Event, id: string)
    requires Possible(reg, ev) && (ev.Raise? || ev.Clear?)
    ensures var (o, reg') := Apply(reg, ev);
            CountAt(reg', id) ==
              CountAt(reg, id) + 
              (if o.Applied? && ev.id == id && reg.alarms[id].isCleared == Some(ev.Raise?) then 1 else 0)
  {
  }

  /** An event that changes an alarm bumps exactly one counter, by one, of that alarm only. */
  lemma ApplyCounts(reg: Registry, ev: Event, id: string)
    ensures var change := Change(reg, ev);
            CountAt(Step(reg, ev), id) ==
              if ev.ResetCounters? then 0
              else if change.Some? && change.value.0 == id then CountAt(reg, id) + 1
              else CountAt(reg, id)
  {
    hide ApplyNotif, ApplyEntry, ApplyRaise, ApplyClear;
    if ev.Notify? {
      NotifCounts(reg, ev.n, ev.now, id);
    } else if ev.Load? {
      EntryCounts(reg, ev.e, ev.now, id);
    } else if Possible(reg, ev) && !ev.ResetCounters? {
      OperationCounts(reg, ev, id);
    }
  }

  lemma ApplyMovesLastChanged(reg: Registry, ev: Event)
    ensures var (change, reg') := (Change(reg, ev), Step(reg, ev));
            && reg'.lastChanged == (if change.Some? then Max(reg.lastChanged, change.value.1) else reg.lastChanged)
            && (change.Some? ==>
                 change.value.0 in reg'.alarms && reg'.alarms[change.value.0].lastChanged == Some(change.value.1))
  {}

  // ---------- all runs ----------

  /** All events in turn. The list lives on when one raises. */
  function Run(reg: Registry, events: seq<Event>): Registry
    decreases |events|
  {
    if events == [] then reg else Run(Step(reg, events[0]), events[1..])
  }

  /** No event of the run raises. */
  predicate AllApplied(reg: Registry, events: seq<Event>)
    decreases |events|
  {
    events != [] ==>
      Possible(reg, events[0]) && Apply(reg, events[0]).0.Applied? && AllApplied(Step(reg, events[0]), events[1..])
  }

  /** The number of changes of an alarm since the counters were last cleared, on top of a starting count. */
  function ChangesSinceReset(reg: Registry, events: seq<Event>, id: string, count: nat): nat
    decreases |events|
  {
    if events == [] then count
    else
      var change := Change(reg, events[0]);
      ChangesSinceReset(Step(reg, events[0]), events[1..], id,
                        if events[0].ResetCounters? then 0
                        else if change.Some? && change.value.0 == id then count + 1 else count)
  }

  /** The latest of a starting time and the times of all changes. */
  function LatestChange(reg: Registry, events: seq<Event>, latest: int): int
    decreases |events|
  {
    if events == [] then latest
    else
      var change := Change(reg, events[0]);
      LatestChange(Step(reg, events[0]), events[1..], if change.Some? then Max(latest, change.value.1) else latest)
  }

  /** The counters of every alarm add up to the number of its changes since the last clearing of counters. */
  lemma {:induction false} RunCountsChanges(reg: Registry, events: seq<Event>, id: string)
    ensures CountAt(Run(reg, events), id) == ChangesSinceReset(reg, events, id, CountAt(reg, id))
    decreases |events|
  {
    if events != [] {
      ApplyCounts(reg, events[0], id);
      RunCountsChanges(Step(reg, events[0]), events[1..], id);
    }
  }

  /** The list's last-changed is the latest time of any change since the start of the run. */
  lemma {:induction false} RunTracksLatestChange(reg: Registry, events: seq<Event>)
    ensures Run(reg, events).lastChanged == LatestChange(reg, events, reg.lastChanged) >= reg.lastChanged
    decreases |events|
  {
    if events != [] {
      ApplyMovesLastChanged(reg, events[0]);
      RunTracksLatestChange(Step(reg, events[0]), events[1..]);
    }
  }

  /** Keys are combined ids and no severity is ever "cleared", whatever raises on the way. */
  lemma {:induction false} RunKeeps(reg: Registry, events: seq<Event>)
    requires Keyed(reg) && NeverSeverityCleared(reg)
    requires forall ev :: ev in events ==> LoadsNoClearedSeverity(ev)
    ensures Keyed(Run(reg, events)) && NeverSeverityCleared(Run(reg, events))
    decreases |events|
  {
    if events != [] {
      assert events[0] in events && forall ev :: ev in events[1..] ==> ev in events;
      if Possible(reg, events[0]) {
        ApplyKeeps(reg, events[0]);
      }
      RunKeeps(Step(reg, events[0]), events[1..]);
    }
  }

  /**
   A notification that sets the time of the change and only then finds out that nothing says if the alarm is
   cleared.
   */
  predicate FailsLate(reg: Registry, ev: Event) {
    && ev.Notify? && ev.n.severity.None? && ev.n.isCleared.None?
    && Target(reg, ev.n, NotifTime(ev.n, ev.now)).isCleared.None? && reg.lastChanged < NotifTime(ev.n, ev.now)
  }

  /** That event, and no other, leaves an alarm that changed after its list. */
  lemma UncoveredIff(reg: Registry, ev: Event)
    requires Keyed(reg) && Covered(reg)
    ensures Covered(Step(reg, ev)) <==> !FailsLate(reg, ev)
  {
    if FailsLate(reg, ev) {
      assert Step(reg, ev).alarms[NotifId(ev.n)].lastChanged == Some(NotifTime(ev.n, ev.now));
    } else if ev.Notify? {
      NotifCovers(reg, ev.n, ev.now);
    } else if Possible(reg, ev) {
      ApplyKeeps(reg, ev);
    }
  }

  lemma NotifCovers(reg: Registry, n: Notif, now: int)
    requires Keyed(reg) && Covered(reg) && !FailsLate(reg, Notify(n, now))
    ensures Covered(ApplyNotif(reg, n, now).1)
  {
    NotifKeeps(reg, n, now);
    NotifRaisesIff(reg, n, now);
  }

  /** At every moment of the run the list covers its alarms. */
  predicate AlwaysCovered(reg: Registry, events: seq<Event>)
    decreases |events|
  {
    Covered(reg) && (events != [] ==> AlwaysCovered(Step(reg, events[0]), events[1..]))
  }

  predicate NeverFailsLate(reg: Registry, events: seq<Event>)
    decreases |events|
  {
    events != [] ==> !FailsLate(reg, events[0]) && NeverFailsLate(Step(reg, events[0]), events[1..])
  }

  lemma {:induction false} AlwaysCoveredIff(reg: Registry, events: seq<Event>)
    requires Keyed(reg) && Covered(reg)
    ensures AlwaysCovered(reg, events) <==> NeverFailsLate(reg, events)
    decreases |events|
  {
    if events != [] {
      UncoveredIff(reg, events[0]);
      if Covered(Step(reg, events[0])) {
        if Possible(reg, events[0]) {
          ApplyKeeps(reg, events[0]);
        }
        AlwaysCoveredIff(Step(reg, events[0]), events[1..]);
      }
    }
  }

  lemma {:induction false} RunOneMore(reg: Registry, events: seq<Event>, ev: Event)
    ensures Run(reg, events + [ev]) == Step(Run(reg, events), ev)
    ensures AllApplied(reg, events + [ev]) <==>
              AllApplied(reg, events) && Possible(Run(reg, events), ev) && Apply(Run(reg, events), ev).0.Applied?
    decreases |events|
  {
    if events == [] {
      assert (events + [ev])[1..] == [];
    } else {
      assert (events + [ev])[1..] == events[1..] + [ev];
      RunOneMore(Step(reg, events[0]), events[1..], ev);
    }
  }

  /** The loading of the first k entries of the datastore's list; the time of day is read for each. */
  function Loads(entries: seq<Entry>, now: nat -> int, k: nat): (events: seq<Event>)
    requires k <= |entries|
    ensures |events| == k && forall e :: e in events ==> e.Load?
  {
    if k == 0 then [] else Loads(entries, now, k - 1) + [Load(entries[k - 1], now(k - 1))]
  }

  /** A severity "cleared" only ever gets into the list by loading an entry that has it. */
  lemma ClearedSeverityIffLoaded(reg: Registry, ev: Event)
    requires Possible(reg, ev) && NeverSeverityCleared(reg)
    ensures !NeverSeverityCleared(Apply(reg, ev).1) <==> ev.Load? && ev.e.severity == "cleared"
  {
    SeverityRoundTrip(Cleared);
    if ev.Load? && ev.e.severity == "cleared" {
      assert Apply(reg, ev).1.alarms[EntryId(ev.e)].severity == Known(Cleared);
    }
  }

  // ---------- when a notification raises ----------

  predicate KnownSeverity(severity: Option<string>) {
    severity.Some? ==> ParseSeverity(severity.value).Some?
  }

  /**
   A notification raises exactly when its severity is not one of the six, when it clears an alarm that
   never had a severity, or when it says nothing about being cleared and nothing was known either.
   */
  lemma NotifRaisesIff(reg: Registry, n: Notif, now: int)
    ensures var a := Target(reg, n, NotifTime(n, now));
            !ApplyNotif(reg, n, now).0.Applied? <==>
              || !KnownSeverity(n.severity)
              || (n.severity == Some("cleared") && a.severity.Missing?)
              || (n.severity.None? && n.isCleared.None? && a.isCleared.None?)
  {
    SeverityRoundTrip(Cleared);
  }

  /** In particular, a first notification that clears its alarm raises and leaves a half-made alarm in the list. */
  lemma ClearingAnUnknownAlarm(reg: Registry, n: Notif, now: int)
    requires NotifId(n) !in reg.alarms && n.severity == Some("cleared")
    ensures var (o, reg') := ApplyNotif(reg, n, now);
            o.AttributeError? && NotifId(n) in reg'.alarms && reg'.alarms[NotifId(n)].severity.Missing?
  {
    NotifRaisesIff(reg, n, now);
  }

  /** What each leaf of a notification that goes through decides, attribute by attribute. */
  lemma WhatEachLeafDecides(reg: Registry, n: Notif, now: int)
    requires ApplyNotif(reg, n, now).0.Applied?
    ensures var time := if n.time.Some? then n.time.value else now;
            var a, b := Target(reg, n, time), ApplyNotif(reg, n, now).1.alarms[NotifId(n)];
            && b.isCleared == (if n.isCleared.Some? then n.isCleared
                               else if n.severity.Some? then Some(n.severity == Some("cleared")) else a.isCleared)
            && b.severity == (if n.severity.None? then a.severity
                              else if n.severity == Some("cleared") then
                                if a.severity.Null? then Known(Indeterminate) else a.severity
                              else Known(ParseSeverity(n.severity.value).value))
            && b.lastRaised == (if n.severity.Some? && n.severity != Some("cleared") then Some(time) else a.lastRaised)
            && b.text == (if n.text.Some? then n.text else a.text)
            && b.lastChanged == Some(time) && b.created == a.created
            && (if b.isCleared.value then (b.timesRaised, b.timesCleared) == (a.timesRaised, a.timesCleared + 1)
                else (b.timesRaised, b.timesCleared) == (a.timesRaised + 1, a.timesCleared))
  {
    NotifRaisesIff(reg, n, now);
  }

  // ---------- to_ietf_alarm_notif, and back ----------

  /** None when an attribute that is needed was never assigned. */
  function ToNotif(a: Alarm): Option<Notif> {
    if a.isCleared.None? || (!a.isCleared.value && !a.severity.Known?) || a.lastChanged.None? || a.text.None? then None
    else
      var shown := if a.isCleared.value then Cleared else a.severity.severity;
      Some(Notif(a.resource, a.typeId, a.qualifier, Some(WholeSecond(a.lastChanged.value)),
            Some(SeverityText(shown)), None, a.text))
  }

  /** The update raises, or the alarm cannot be shown after it. */
  predicate CannotSend(reg: Registry, n: Notif, now: int) {
    var (o, reg') := ApplyNotif(reg, n, now);
    !o.Applied? || ToNotif(reg'.alarms[NotifId(n)]).None?
  }

  /**
   In terms of the notification and of what was known of its alarm: besides what makes the update raise, a text is
   missing, or the alarm is not cleared and has no severity.
   */
  lemma CannotSendIff(reg: Registry, n: Notif, now: int)
    ensures var a := Target(reg, n, if n.time.Some? then n.time.value else now);
            CannotSend(reg, n, now) <==>
              || !KnownSeverity(n.severity)
              || (n.severity == Some("cleared") && a.severity.Missing?)
              || (n.severity.None? && n.isCleared.None? && a.isCleared.None?)
              || (n.text.None? && a.text.None?)
              || (n.severity.None? && !a.severity.Known?
                  && (n.isCleared == Some(false) || (n.isCleared.None? && a.isCleared == Some(false))))
  {
    SeverityRoundTrip(Cleared);
    NotifRaisesIff(reg, n, now);
    if ApplyNotif(reg, n, now).0.Applied? {
      WhatEachLeafDecides(reg, n, now);
    }
  }

  /** The notification of the alarm that an event was about, as the list shows it then. */
  function Shown(reg: Registry, ev: Event): seq<Notif> {
    if ev.Notify? && NotifId(ev.n) in reg.alarms && ToNotif(reg.alarms[NotifId(ev.n)]).Some?
    then [ToNotif(reg.alarms[NotifId(ev.n)]).value] else []
  }

  /** The notifications sent in a run in which every update is followed by one. */
  function SentOf(reg: Registry, events: seq<Event>): seq<Notif> {
    if events == [] then [] else SentOf(reg, events[..|events|-1]) + Shown(Run(reg, events), events[|events|-1])
  }

  lemma SentOneMore(reg: Registry, events: seq<Event>, ev: Event)
    ensures SentOf(reg, events + [ev]) == SentOf(reg, events) + Shown(Run(reg, events + [ev]), ev)
  {
    assert (events + [ev])[..|events|] == events;
  }

  lemma {:induction false} AtMostOneEach(reg: Registry, events: seq<Event>)
    ensures |SentOf(reg, events)| <= |events|
  {
    if events != [] {
      AtMostOneEach(reg, events[..|events|-1]);
    }
  }

  /** When one notification was sent for every event, each shows the alarm of its event as the list had it then. */
  lemma {:induction false} SentAreShown(reg: Registry, events: seq<Event>, i: nat)
    requires |SentOf(reg, events)| == |events| && i < |events|
    ensures events[i].Notify?
    ensures var list, id := Run(reg, events[..i + 1]), NotifId(events[i].n);
            id in list.alarms && ToNotif(list.alarms[id]) == Some(SentOf(reg, events)[i])
  {
    hide Run, ToNotif;
    var n := |events| - 1;
    AtMostOneEach(reg, events[..n]);
    if i < n {
      SentAreShown(reg, events[..n], i);
      assert events[..n][..i + 1] == events[..i + 1];
    } else {
      assert events[..i + 1] == events;
    }
  }

  /**
   Feeding a listed alarm's own notification back keeps its identity, cleared state, severity and text,
   cuts its last change to the whole second, and bumps the one counter that belongs to its state; no
   other alarm and not even the list's last-changed are touched.
   */
  lemma NotificationRoundTrip(reg: Registry, id: string, now: int)
    requires id in reg.alarms && Keyed(reg) && NeverSeverityCleared(reg) && Covered(reg)
    requires reg.alarms[id].severity.Known? && ToNotif(reg.alarms[id]).Some?
    ensures var a, time := reg.alarms[id], WholeSecond(reg.alarms[id].lastChanged.value);
            var (o, reg') := ApplyNotif(reg, ToNotif(a).value, now);
            && o.Applied? && reg'.lastChanged == reg.lastChanged
            && reg'.alarms == reg.alarms[id := a.(lastChanged := Some(time),
                                                  lastRaised := if a.isCleared.value then a.lastRaised else Some(time),
                                                  timesCleared := a.timesCleared + (if a.isCleared.value then 1 else 0),
                                                  timesRaised := a.timesRaised + (if a.isCleared.value then 0 else 1))]
  {
    var a := reg.alarms[id];
    SeverityRoundTrip(if a.isCleared.value then Cleared else a.severity.severity);
    assert NotifId(ToNotif(a).value) == IdOf(a) == id;
  }

  // ---------- to_ietf_alarm, and back ----------

  /**
   None when an attribute that is needed was never assigned, or the severity is None and has no text in the
   enumeration.
   */
  function ToEntry(a: Alarm): Option<Entry> {
    if a.isCleared.None? || !a.severity.Known? || a.text.None? || a.created.None? || a.lastRaised.None?
      || a.lastChanged.None? then None
    else
      var times := Times(WholeSecond(a.created.value), WholeSecond(a.lastRaised.value),
                         WholeSecond(a.lastChanged.value));
      Some(Entry(a.resource, a.typeId, a.qualifier, a.isCleared.value, SeverityText(a.severity.severity), a.text.value,
                 Some(times)))
  }

  /**
   Loading the entry that an alarm shows in the datastore, into whatever list, gives that alarm with its
   times cut to whole seconds and one more change counted on top of the counters of the list's own.
   */
  lemma EntryRoundTrip(a: Alarm, reg: Registry, now: int)
    requires ToEntry(a).Some? && Keyed(reg)
    requires IdOf(a) in reg.alarms ==> Triple(reg.alarms[IdOf(a)]) == Triple(a)
    ensures var (o, reg') := ApplyEntry(reg, ToEntry(a).value, now);
            var listed := if IdOf(a) in reg.alarms then reg.alarms[IdOf(a)]
                          else NewAlarm(a.resource, a.typeId, a.qualifier);
            && o.Applied? && reg'.lastChanged == Max(reg.lastChanged, WholeSecond(a.lastChanged.value))
            && reg'.alarms == reg.alarms[IdOf(a) := a.(created := Some(WholeSecond(a.created.value)),
                                                       lastRaised := Some(WholeSecond(a.lastRaised.value)),
                                                       lastChanged := Some(WholeSecond(a.lastChanged.value)),
                                                       timesCleared := listed.timesCleared
                                                         + (if a.isCleared.value then 1 else 0),
                                                       timesRaised := listed.timesRaised
                                                         + (if a.isCleared.value then 0 else 1))]
  {
    SeverityRoundTrip(a.severity.severity);
  }

  // ---------- raising and clearing ----------

  /**
   Clearing a raised alarm and raising it again restores it, but for the two counters and the times of the second
   call.
   */
  lemma ClearThenRaise(reg: Registry, id: string, cleared: int, raised: int)
    requires id in reg.alarms && reg.alarms[id].isCleared == Some(false) && reg.lastChanged <= cleared <= raised
    ensures var between := ApplyClear(reg, id, cleared).1;
            var a := reg.alarms[id];
            && between.alarms[id]
               == a.(isCleared := Some(true), lastChanged := Some(cleared), timesCleared := a.timesCleared + 1)
            && between.lastChanged == cleared
            && ApplyRaise(between, id, None, raised) ==
               (Applied, Registry(reg.alarms[id := a.(lastChanged := Some(raised), lastRaised := Some(raised),
                                                      timesRaised := a.timesRaised + 1,
                                                      timesCleared := a.timesCleared + 1)], raised))
  {
    var a := reg.alarms[id];
    var b := a.(isCleared := Some(true), lastChanged := Some(cleared), timesCleared := a.timesCleared + 1);
    var c := Raised(b, None, raised).1;
    assert Lowered(a, cleared) == (Applied, b);
    assert c == a.(lastChanged := Some(raised), lastRaised := Some(raised),
                   timesRaised := a.timesRaised + 1, timesCleared := a.timesCleared + 1);
    assert reg.alarms[id := b][id := c] == reg.alarms[id := c];
  }

  /** A call that finds the alarm in the state it asks for changes nothing, so repeating a call counts once. */
  lemma RepeatedCallsCountOnce(reg: Registry, id: string, severity: Option<Severity>, first: int, again: int)
    requires id in reg.alarms && reg.alarms[id].isCleared.Some? && severity != Some(Cleared)
    ensures var raised := ApplyRaise(reg, id, severity, first).1;
            ApplyRaise(raised, id, severity, again) == (Applied, raised)
    ensures var cleared := ApplyClear(reg, id, first).1;
            ApplyClear(cleared, id, again) == (Applied, cleared)
  {
    var raised, cleared := ApplyRaise(reg, id, severity, first).1, ApplyClear(reg, id, first).1;
    assert raised.alarms[id].isCleared == Some(reg.alarms[id].isCleared.value && false);
    assert cleared.alarms[id].isCleared == Some(reg.alarms[id].isCleared.value || true);
  }
}
