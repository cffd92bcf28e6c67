# A model of the device simulator's protocols, schedulers and formats

The repository simulates O-RAN devices that speak NETCONF. This project models the parts of it that hold
state or compute, and proves what they are for:

- **Performance management.** `InterruptibleSleep` is the bounded-latency sleep on an arbitrary clock.
  `PmScheduler` says which reports the polling loop makes from the clock readings of its turns, `PmRetention`
  what its cleanup leaves on disk, `ReportTemplate` and `MarkerText` what the template expansion produces, and
  `ReportReading` what a consumer reads back. `PerformanceManagement` is the object itself, with its loops and
  fields, proved to do what those four say.
- **Fault management.** `AlarmRegistry` is the alarm list as a value with all its events, `AlarmSteps` the
  configured steps and their timing, `AlarmCounters` one counter under two threads, `FaultManagement` the objects
  that are updated in place and the thread that plays the steps, `FaultHandshake` every interleaving of start,
  stop and the threads.
- **Call Home.** `CallHome` is the O-DU's session registry as a state machine; `CallHomeAllow` the retry
  loop against the SDN controller.
- **VES.** `Ves` is the sender with its shared sequence number, for any threads; `PnfRegistration` the
  registration loop and the list it works on.
- **JSON trees.** `JsonTree` has the path operations on values and `JsonHeap` the same on cells in memory, with
  a cursor; `RemoteAddress` and `RemoteAddressHeap` do this for the recursive rewrite of addresses.
- **Formats.** `DhcpOption43`, `DatastoreFiles` and `TextFormats` (durations, PEM, fingerprints).
  `CallHomeSettings` joins option 43 and the rewrite: from the bytes of an offer to the endpoints.
- **Datastore writes.** `SetData`: several modules, one commit.

Object code is modelled by classes whose methods are proved against functions; protocols between threads are
state machines whose runs are arbitrary sequences of actions. Instants are integers: milliseconds for the
schedulers, microseconds for the alarms. An environment that the code cannot see (how long a clock access
takes, what a server replies, whether a call raises) is a function that the theorems quantify over.

## What the code does that its documentation does not say

- A sleep can raise `ValueError`: the time is read twice in a turn of the loop, and when the deadline passes
  in between, the second difference is negative (`InterruptibleSleep.RaisesIffAccessesOutlastTheSleep`).
- A log period of one second cannot be kept, because a reporting turn sleeps 1.1 s
  (`PmScheduler.OneSecondPeriodMissesBoundaries`); two seconds and more can (`PmScheduler.PaceCanBeKeptIff`). The
  first report can end before it starts (`PmScheduler.FirstReportInverted`).
- A file name shows the date and minute of the start but only the hour and minute of the end, so with a period under
  a minute, or within a minute of a whole number of days, files overwrite each other
  (`PmRetention.FileNamesClashIff`).
- A performance configuration that is rejected stays in place (`PerformanceManagement.PerformanceManagement.LoadData`),
  and `start` starts the thread all the same. The thread then dies, leaving an empty file, at the first report whose
  value set lacks a point or for which a point has no id (`PerformanceManagement.PerformanceManagement.Task`).
- An attribute of an alarm that was never assigned does not exist, so the `None` that `from_ietf_alarm_notif`
  tests for is not what it finds: clearing an unknown alarm raises and leaves a half-made alarm in the list
  (`AlarmRegistry.ClearingAnUnknownAlarm`). The combined id is a concatenation and not injective
  (`AlarmRegistry.CanCollideIff`); it is injective among names of which none begins with another
  (`AlarmRegistry.PrefixFreeNamesNeverCollide`).
- A clear of the counters that falls into an addition can be lost (`AlarmCounters.CountersAddUpIff`).
- `load_alarms` refuses only a total delay of exactly zero; with a negative one the thread never sleeps
  (`AlarmSteps.NegativeSumSpins`). It fills in a default under the wrong key, so a configuration without
  `loop` ends the thread with a `KeyError` (`LoopMissing` in `FaultManagement.FaultManagement.Task`); after any
  exception the feature cannot be started again (`FaultHandshake.RestartableIffNoException`).
- Two O-RUs with the same hostname share one row, and lose it when one of them leaves
  (`CallHome.SharedHostnameLosesARow`).
- A message whose reply is lost keeps its sequence number, so the collector may see a number twice
  (`Ves.CollectorRepeatsOnlyTheUnacknowledged`).
- An SSH endpoint with an empty list of users inherits the credentials of the endpoint before it
  (`PnfRegistration.ListedWithOwnCredentialsIff`).
- Option 43: section 8.4 of RFC 2132 takes its encapsulated options from the format in which pad (0) and end
  (255) have no length; the code reads a length behind every tag, and so does the model. At the end of a payload this
  does no harm (`DhcpOption43.TrailersDoNoHarm`), in front of a name it does (`DhcpOption43.PadLosesTheName`); exactly
  when the readings agree says `DhcpOption43.ReadsLikeTheStandardIff`. A malformed value wipes out an earlier good
  one (`DhcpOption43.LastOneDecides`).
- With call home over SSH, the rewrite of addresses changes nothing (`CallHomeSettings.SshAddressesStay`).
- PEM text without a final line break would lose its last line (`TextFormats.WithoutFinalBreakLastLineIsLost`). The
  serializers that feed the getters always write one.
- After a failed write the edits made so far stay staged and go out with the next commit
  (`SetData.LeftoversGoWithTheNextCommit`).

## Model

| member | source | states |
|---|---|---|
| InterruptibleSleep.Clock.Sleep | base/src/util/threading.py:33-44 | the loop ends like the specification of the sleep, in outcome and time, whatever clock accesses cost |
| InterruptibleSleep.NeverEarly | base/src/util/threading.py:33-44 | a sleep only ends before its interval is over when a watched flag is set |
| InterruptibleSleep.Timing | base/src/util/threading.py:33-44 | with bounded access costs a sleep overshoots its interval by a bounded amount only |
| InterruptibleSleep.Latency | base/src/util/threading.py:33-44 | a flag set during the sleep ends it within about a second |
| InterruptibleSleep.RaisesIffAccessesOutlastTheSleep | base/src/util/threading.py:33-44 | some clock makes a sleep raise exactly when, after some number of full pauses, the accesses made until then can outlast the rest of the interval |
| PmScheduler.ReportedIffPolled | base/src/performance_management/performance_management.py:252-256 | at any pace, a second is reported exactly when it is a multiple of the period and the loop polls in it |
| PmScheduler.NoBoundaryTwiceNoOverlap | base/src/performance_management/performance_management.py:249-273 | for any monotone clock no boundary is reported twice and no report overlaps the next |
| PmScheduler.EveryBoundaryExactlyOnce | base/src/performance_management/performance_management.py:249-273 | a paced run reports b, b+p, b+2p, ... without a gap up to the last poll, the k-th report with value set k modulo their number |
| PmScheduler.BoundariesAreReported | base/src/performance_management/performance_management.py:249-273 | in a paced run every boundary is reported whose second is over before the turn after the last one is due |
| PmScheduler.PromptReportsTileTime | base/src/performance_management/performance_management.py:174-182 | with clock reads inside the boundary's second, all reports but the first cover one period, meet the one before and are not suspect |
| PmScheduler.FirstReportInverted | base/src/performance_management/performance_management.py:250-262 | for any monotone run: the first report ends before it starts exactly when the thread was started inside a boundary second, after its first instant, and the end is read in that second |
| PmScheduler.OneSecondPeriodMissesBoundaries | base/src/performance_management/performance_management.py:263-273 | with a period of one second, eleven reports have already missed a boundary |
| PmScheduler.PaceCanBeKeptIff | base/src/performance_management/performance_management.py:249-273 | runs of any length in which a reporting turn ends within its period exist if and only if the period is at least two seconds |
| PmRetention.BoundedRetentionOverEveryRun | base/src/performance_management/performance_management.py:165-167 | over every run at most repetition_period / log_period + 1 files survive each cleanup, if files are written in their boundary's second |
| PmRetention.NothingLostBeforeItsTime | base/src/performance_management/performance_management.py:165-167 | with distinct names, cleaning up after every report leaves what one cleanup of all files would leave |
| PmRetention.FileNamesClashIff | base/src/performance_management/performance_management.py:232-240 | some paced and prompt run, its first report included, gives two reports one file name if and only if the period is under a minute, or less than a minute away from a whole number of days |
| PmRetention.ClashLosesAFile | base/src/performance_management/performance_management.py:232-240 | for every such period, a run in which the second report takes the first one's name and a file is lost that its age would have kept |
| PmRetention.NothingLostOverEveryRun | base/src/performance_management/performance_management.py:249-273 | for all other periods, over every paced and prompt run, no file is lost before its time |
| PmRetention.KeptForTheRepetitionPeriod | base/src/performance_management/performance_management.py:121-129 | over every such run, the files on disk are exactly those that are not older than the repetition period |
| ReportTemplate.ContentIsReport | base/src/performance_management/performance_management.py:170-236 | on the text of every well-formed template, in which up to two variables may be adjacent, the generated report is the template's meaning: variables filled, blocks repeated per point |
| ReportTemplate.NameBetweenVariables | base/src/performance_management/performance_management.py:184-186 | a text that spells a variable's name between two others is replaced, and takes their '@' with it |
| ReportTemplate.ThreeInARow | base/src/performance_management/performance_management.py:184-186 | hence, of three adjacent variables, a middle one that stands for a name destroys the two around it |
| ReportTemplate.UniformTemplatesExpandInPlace | base/src/performance_management/performance_management.py:194-225 | with identical block bodies every block is replaced by its own rows in place |
| ReportTemplate.NoMarkerLeft | base/src/performance_management/performance_management.py:184-236 | a template that uses only known variables leaves no '@' behind, whether its blocks of a kind are alike or not |
| MarkerText.BlocksReplacedTextKept | base/src/performance_management/performance_management.py:194-225 | t0 S b1 E t1 ... tk becomes t0 R t1 ... R tk for any texts in which the delimiters are anchored |
| MarkerText.AnchoredIffNoOverlap | base/src/performance_management/performance_management.py:194-225 | a delimiter is anchored behind a text exactly when the text neither contains it nor ends in it short of its last '@' |
| ReportReading.PointIdsAreDense | base/src/performance_management/performance_management.py:131-141 | for distinct points the ids are 1..n in list order |
| ReportReading.BlocksAreSpelled | base/src/performance_management/performance_management.py:194-225 | how the blocks of the model are spelled in the template file |
| ReportReading.ReportReadsBack | base/src/performance_management/performance_management.py:184-236 | in the text that content() makes, every block is found by the fixed text in front of it and read back: row k has the id and the column of point k, for any number of blocks and points |
| ReportReading.ValuesJoinTheirNames | base/src/performance_management/performance_management.py:200-225 | joining any type block with any value block of the finished report by id pairs every name with the value measured under that name |
| PerformanceManagement.PerformanceManagement.LoadData | base/src/performance_management/performance_management.py:103-141 | a configuration is accepted exactly when its periods are full minutes and a multiple and every value set has every point; which error is raised otherwise, in the order of the tests; the fields are assigned even then, the ids only on success, and after success every value set can be reported |
| PerformanceManagement.StrReadsBack | base/src/performance_management/performance_management.py:223 | the text of an integer reads back to it, for every integer |
| PerformanceManagement.PerformanceManagement.Content | base/src/performance_management/performance_management.py:170-230 | an exception exactly when some point has no id or no value; otherwise the template filled with data that read back to the inputs: the times of the report, the periods as seconds, the suspect text exactly for a short interval, the ids, and every value as its number |
| PerformanceManagement.PerformanceManagement.ReportShowsValueSet | base/src/performance_management/performance_management.py:170-230 | reading the report's text back gives, in every block, row k with the id and the name of point k or the number measured for it, and around the blocks the report's own times, periods and host |
| PerformanceManagement.PerformanceManagement.Generate | base/src/performance_management/performance_management.py:232-247 | the clock readings of a report, the report and its text; an exception exactly when the text cannot be made, which leaves an empty file |
| PerformanceManagement.PerformanceManagement.Turn | base/src/performance_management/performance_management.py:249-273 | the clock readings of a turn, and exactly when each exception ends it: there is no value set, the next one cannot be shown, the sending of this report raises, a sleep raises |
| PerformanceManagement.PerformanceManagement.Task | base/src/performance_management/performance_management.py:249-273 | the reports are those the specification makes of the loop's clock readings, which are monotone, and paced when the work is fast enough; the k-th file has the text of value set k modulo their number. Every exit has its cause: when nothing raises and clock accesses take at most 50 ms, only a flag ends the run, and every boundary between start and flag has been reported |
| AlarmRegistry.RunKeeps | base/src/fault_management/alarm.py:67-180 | over all event sequences, going on after exceptions, keys are combined ids and no severity is "cleared" |
| AlarmRegistry.UncoveredIff | base/src/fault_management/alarm.py:164-173 | the one event after which an alarm changed later than its list: a notification newer than the list that says nothing about being cleared, for an alarm of which nothing was known |
| AlarmRegistry.AlwaysCoveredIff | base/src/fault_management/alarm.py:164-180 | over all event sequences last_changed covers every alarm at every moment exactly when no such event occurs |
| AlarmRegistry.ApplyKeepsIdentity | base/src/fault_management/alarm.py:67-180 | no event takes an alarm off the list or changes its identity |
| AlarmRegistry.RunCountsChanges | base/src/fault_management/alarm.py:93-98 | over all event sequences, going on after exceptions, an alarm's counters add up to its changes since the counters were last cleared |
| AlarmCounters.CountersAddUpIff | base/src/fault_management/alarm.py:173-176 | in every interleaving of two-step additions and clears, the counter is the number of additions since the last clear unless that clear fell into an addition which had read more than zero and was completed |
| AlarmCounters.CountSinceLastClear | base/src/fault_management/alarm.py:96-98 | the counter in every interleaving: the additions since the last clear plus what an addition under way has brought back |
| AlarmCounters.ClearIsLost | base/src/fault_management/alarm.py:96-98 | an interleaving for every count in which the clear has no effect at all |
| AlarmRegistry.RunTracksLatestChange | base/src/fault_management/fault_management.py:118-122 | over all event sequences, going on after exceptions, last_changed is the latest of its start value and the times of all changes |
| AlarmRegistry.ClearedSeverityIffLoaded | base/src/fault_management/alarm.py:101-135 | a "cleared" severity gets into the list exactly by loading an entry that has one |
| AlarmRegistry.NotifRaisesIff | base/src/fault_management/alarm.py:138-180 | exactly which notifications raise |
| AlarmRegistry.WhatEachLeafDecides | base/src/fault_management/alarm.py:138-180 | which leaf decides each attribute of the alarm after a notification that goes through |
| AlarmRegistry.ClearingAnUnknownAlarm | base/src/fault_management/alarm.py:150-166 | a first notification that clears raises and leaves an alarm without severity in the list |
| AlarmRegistry.NotificationRoundTrip | base/src/fault_management/alarm.py:201-216 | feeding an alarm's notification back keeps identity, state, severity and text, truncates last_changed and bumps one counter, and touches nothing else |
| AlarmRegistry.EntryRoundTrip | base/src/fault_management/alarm.py:182-197 | loading the entry an alarm shows gives the alarm back with times in whole seconds and one change counted, in any list |
| AlarmRegistry.ClearThenRaise | base/src/fault_management/alarm.py:67-88 | clearing and raising again restores an alarm but for the two counters and the later times |
| AlarmRegistry.RepeatedCallsCountOnce | base/src/fault_management/alarm.py:67-88 | raising what is raised, or clearing what is cleared, changes nothing |
| AlarmRegistry.SharedIdIff | base/src/fault_management/alarm.py:56-62 | two triples with one combined id are the same exactly when their resources and their type ids are equally long |
| AlarmRegistry.CanCollideIff | base/src/fault_management/alarm.py:56-62 | some qualifiers make alarms of two resources and types share an id exactly when one of the texts resource + type id begins with the other |
| AlarmRegistry.PrefixFreeNamesNeverCollide | base/src/fault_management/alarm.py:56-62 | with resources of which none begins with another, and type ids of the same kind, an id belongs to one triple only |
| AlarmRegistry.HitsAnotherAlarmIff | base/src/fault_management/alarm.py:138-153 | a notification updates an alarm of another triple exactly when one with its combined id is listed |
| FaultManagement.Alarm.Update | base/src/fault_management/alarm.py:138-180 | the assignments in place, in their order and up to the exception, amount to the specified update |
| FaultManagement.Alarm.Raise | base/src/fault_management/alarm.py:67-79 | the new attributes, the error, and whether there was a change to report |
| FaultManagement.Alarm.Clear | base/src/fault_management/alarm.py:81-88 | the same for clearing |
| FaultManagement.Registry.FromNotif | base/src/fault_management/alarm.py:138-180 | finding or adding the object and updating it is one notification event on the list as a value |
| FaultManagement.Registry.LoadActive | base/src/fault_management/fault_management.py:124-142 | the list after loading is a run of load events from the datastore's last-changed, up to the first that raises |
| FaultManagement.Registry.AlarmRaise | base/src/fault_management/alarm.py:67-79 | raising a listed alarm is one raise event on the list as a value; the list hears of it only if something changed |
| FaultManagement.Registry.AlarmClear | base/src/fault_management/alarm.py:81-88 | the same for clearing |
| FaultManagement.Registry.ClearCounters | base/src/fault_management/fault_management.py:326-328 | all counters are zero, everything else is as before |
| FaultManagement.FaultManagement.LoadAlarms | base/src/fault_management/fault_management.py:154-180 | accepts exactly the steps whose delays do not add up to zero, and keeps the old ones otherwise |
| AlarmRegistry.CannotSendIff | base/src/fault_management/alarm.py:138-216 | exactly when a notification cannot be taken over and sent on, in terms of its leaves and of what was known of its alarm |
| AlarmRegistry.SentAreShown | base/src/fault_management/alarm.py:201-216 | with one notification sent per event, each shows the alarm of its event as the list had it then |
| FaultManagement.FaultManagement.Notify | base/src/fault_management/fault_management.py:265-268 | the list after the update, what is sent, and that it raises exactly when the sending does or the alarm cannot be updated and shown |
| FaultManagement.FaultManagement.PlayStep | base/src/fault_management/fault_management.py:261-272 | exactly when a step raises, what it sends, and that its delay is a sleep that watches the feature's own event |
| FaultManagement.FaultManagement.Task | base/src/fault_management/fault_management.py:248-275 | after k turns the list is the fold of the notifications of steps 0..k-1 modulo n, and exactly one was sent for each; without loop it ends after exactly n; elapsed time covers the delays and exceeds them by three clock accesses a step at most. It crashes only of an alarm that cannot be sent or a sleep that raises; without those and without a flag, all steps are played and it finishes |
| FaultManagement.NothingFailsNothingBreaks | base/src/fault_management/fault_management.py:248-275 | steps whose alarms have a text and a severity other than cleared cannot break a run by themselves |
| FaultManagement.QuickClockNeverFails | base/src/fault_management/fault_management.py:270-272 | on a clock whose accesses take at most a millisecond no delay raises |
| AlarmSteps.AcceptedPassesTakeTime | base/src/fault_management/fault_management.py:166-177 | with non-negative delays, q passes take exactly q times their positive sum |
| AlarmSteps.UnboundedIffSomePositiveDelay | base/src/fault_management/fault_management.py:166-177 | the loop's sleeping time grows without bound if and only if some delay is positive |
| AlarmSteps.NegativeSumSpins | base/src/fault_management/fault_management.py:166-177 | accepted steps for which it does not |
| FaultHandshake.Feature.Start | base/src/fault_management/fault_management.py:182-203 | the call, its answer, and that uninterrupted it is the five steps of the state machine |
| FaultHandshake.Feature.Stop | base/src/fault_management/fault_management.py:205-210 | the same for stop |
| FaultHandshake.OneLiveTaskOnItsOwnSteps | base/src/fault_management/fault_management.py:182-203 | in every interleaving at most one thread is live; stopped is then false and the installed steps are its own |
| FaultHandshake.StartRefusedIff | base/src/fault_management/fault_management.py:182-190 | between calls start is refused exactly while the last thread is live or has died of an exception |
| FaultHandshake.StopIsNeverLost | base/src/fault_management/fault_management.py:205-210 | after stop has set the event the thread begins no further turn and is gone after at most four steps of its own, whatever else runs |
| FaultHandshake.AskedTaskCanEnd | base/src/fault_management/fault_management.py:248-275 | wherever a live task stands when the event is set, its own steps end it and make the feature startable |
| FaultHandshake.TerminationEndsTasks | base/src/fault_management/fault_management.py:248-275 | the end of the program reaches every live task in the same way |
| FaultHandshake.TasksTakeTurns | base/src/fault_management/fault_management.py:248-275 | without a request to stop, a task plays a turn and is back at its test |
| FaultHandshake.TurnsCanDie | base/src/fault_management/fault_management.py:248-275 | an exception can end a thread while it plays its step and while it sleeps, and leaves stopped unset |
| FaultHandshake.RestartableIffNoException | base/src/fault_management/fault_management.py:248-275 | some continuation starts another thread if and only if none has died of an exception |
| CallHome.RowsBelongToActiveSessions | o-du-o1/src/main.py:108-165 | every row has the hostname and the data of an active session; own lookups never fail; ids are unique and issued |
| CallHome.ConnectionsAreConserved | o-du-o1/src/main.py:168-195 | queued + running + finished = accepted; at most five run, at most as many are listed |
| CallHome.NothingIsLeftBehind | o-du-o1/src/main.py:155-165 | when all handlers have finished, no entry, row or lock is left |
| CallHome.EverySessionCanEnd | o-du-o1/src/main.py:108-165 | from every reachable state some continuation without a new connection brings every handler, queued ones too, to its end, with no entry, row or lock left |
| CallHome.HangingUpEndsTheSession | o-du-o1/src/main.py:147-165 | in every reachable state with the lock free, a device that hangs up in any phase is gone four steps later, with its entry and the row of its hostname and nothing else |
| CallHome.MirrorBreaksIff | o-du-o1/src/main.py:232-256 | a step breaks the mirror of synced sessions exactly when it writes or removes a row that another synced session shares |
| CallHome.RowsAreTheSyncedSessions | o-du-o1/src/main.py:197-256 | while hostnames are distinct, the rows are exactly the synced sessions |
| CallHome.SharedHostnameLosesARow | o-du-o1/src/main.py:155-165 | a run in which a session that is being served has lost its row |
| CallHomeAllow.SendAllowTls | o-ru-mplane/src/main.py:79-137 | which requests are sent; the loop is retried until the first pass by which both were acknowledged, and is left before only by a sleep that raises; then certificate and device are in place, and nobody else's entries changed |
| CallHomeSettings.ReplaceSettings | o-ru-mplane/src/main.py:163-192 | which of the three lookups decides the answer and the parameters; those of calling home are readdressed in memory with the name, else the address, and given to the datastore; otherwise nothing is |
| CallHomeSettings.SshAddressesStay | o-ru-mplane/src/main.py:168-186 | parameters without a TLS part below an endpoint of the controller go back as they were: an offer does not redirect calls over SSH |
| CallHomeSettings.OffersReachTheEndpoints | o-ru-mplane/src/main.py:180-186 | from the bytes of all offers: the targets get the last valid name or address, everything apart from them is as before |
| Ves.Ves.Execute | base/src/core/ves.py:121-154 | the message is stamped from the counters; the sequence number moves on success only |
| Ves.AcceptedAreNumberedInOrder | base/src/core/ves.py:121-154 | for all interleavings one thread at a time is inside, and accepted messages carry 0, 1, 2, ... |
| Ves.EveryCallCanEnd | base/src/core/ves.py:121-154 | in every reachable state the thread inside gets out by its own steps, whatever the reply, and the lock is free |
| Ves.NotificationIdsCountAttempts | base/src/performance_management/ves_fileready.py:61-74 | file-ready ids are 1, 2, 3, ... over all attempts, successful or not |
| Ves.CollectorRepeatsOnlyTheUnacknowledged | base/src/core/ves.py:77-102 | the collector sees no gap, and a number again exactly after an arrival that was not acknowledged |
| Ves.ACallIsExecute | base/src/core/ves.py:121-154 | an uninterrupted passage through the state machine is the method |
| PnfRegistration.Registration.GetListenConnections | base/src/feature/ves_pnfregistration.py:77-112 | the list grows by what the specification collects, up to the failure |
| PnfRegistration.ListedWithOwnCredentialsIff | base/src/feature/ves_pnfregistration.py:97-105 | every endpoint is listed with its own credentials exactly when none has an empty list of users |
| PnfRegistration.MarkIsDropped | base/src/feature/ves_pnfregistration.py:97-105 | a password marked as plain text loses the mark and nothing else |
| PnfRegistration.Registration.SendInBackground | base/src/feature/ves_pnfregistration.py:47-75 | every endpoint is tried until its first success and never after, in list order; the loop ends after the first pass by which all have succeeded, with one number consumed per endpoint, and before that only by a sleep that raises |
| PnfRegistration.AcceptedExactlyOnce | base/src/feature/ves_pnfregistration.py:54-68 | an endpoint that is done has been accepted once, by its last attempt |
| PnfRegistration.AcceptedIffSomePassSucceeds | base/src/feature/ves_pnfregistration.py:54-68 | it is done after some passes exactly when one of their replies was a success |
| JsonTree.UpdateSucceedsIff | base/src/core/dict_factory.py:53-77 | a plain update succeeds exactly when the parent is a dictionary or a list that has the index |
| JsonTree.GetAfterUpdate | base/src/core/dict_factory.py:53-77 | get after update |
| JsonTree.LastUpdateWins | base/src/core/dict_factory.py:53-77 | the first of two updates at one path leaves no trace |
| JsonTree.UpdatesCommute | base/src/core/dict_factory.py:53-77 | updates at paths apart from each other commute |
| JsonTree.UpdateFrame | base/src/core/dict_factory.py:53-77 | whatever is apart from the place written is unchanged, appending or not |
| JsonTree.UpdateWritesItsPlace | base/src/core/dict_factory.py:71-77 | the value is at that place, which for an append is behind the last item |
| JsonTree.AppendExtends | base/src/core/dict_factory.py:71-77 | an append extends the list by one item and keeps the others |
| JsonTree.DeleteUndoesInsert | base/src/core/dict_factory.py:79-105 | deleting what was inserted under a fresh key restores the tree |
| JsonTree.DeleteSucceedsIff | base/src/core/dict_factory.py:79-105 | a deletion succeeds exactly when something is at the path |
| JsonTree.DeleteRemovesOneEntry | base/src/core/dict_factory.py:93-105 | one entry of the parent is gone; later items of a list move down |
| JsonTree.DeleteFrame | base/src/core/dict_factory.py:79-105 | whatever is apart from the parent is unchanged |
| JsonHeap.Template.UpdateKey | base/src/core/dict_factory.py:53-77 | the cursor loop and its one assignment in place turn the tree in memory into the updated value, or fail with the same error and change nothing |
| JsonHeap.Template.DeleteKey | base/src/core/dict_factory.py:79-105 | the same for deletion |
| JsonHeap.Reseated | base/src/core/dict_factory.py:53-77 | assigning the cells below one place of a tree without sharing changes that place and no other |
| RemoteAddress.TargetsGetTheAddress | o-ru-mplane/src/main.py:195-209 | every reachable TLS endpoint whose name contains the target has the new address |
| RemoteAddress.OnlyTargetsChange | o-ru-mplane/src/main.py:195-209 | whatever is apart from all those addresses is unchanged |
| RemoteAddress.LastAddressWins | o-ru-mplane/src/main.py:195-209 | a second address overwrites the first without a trace; in particular the rewrite is idempotent |
| RemoteAddress.TargetsStay | o-ru-mplane/src/main.py:195-209 | the targets are in the same places before and after |
| RemoteAddressHeap.Rewrite | o-ru-mplane/src/main.py:195-209 | the recursion in place, with entries visited in any order, makes of the tree in memory what the function makes of its value |
| DhcpOption43.SplitIsTheOnlyReading | base/src/core/config.py:181-194 | a payload has exactly one reading as complete sub-options followed by bytes that are not one |
| DhcpOption43.SplitOfEncoded | base/src/core/config.py:181-194 | reading undoes encoding for values up to 255 bytes |
| DhcpOption43.SplitOfConcatenation | base/src/core/config.py:181-194 | after a completely consumed prefix the rest reads as if alone |
| DhcpOption43.ReadsLikeTheStandardIff | base/src/core/config.py:181-194 | the program reads a payload like section 8.4 of RFC 2132 exactly when it takes no pad and no end for a tag and does not give up at a pad that has a complete option behind it |
| DhcpOption43.PadLosesTheName | base/src/core/config.py:181-194 | a pad in front of the collector's name, for every name of fewer than 131 bytes, loses it and the environment decides |
| DhcpOption43.TrailersDoNoHarm | base/src/core/config.py:181-194 | sub-options followed by an end, pads or both give the settings of the standard's reading |
| DhcpOption43.Config.ParseOption43 | base/src/core/config.py:181-244 | the index loop is the fold over that reading, stays in range, and leaves the settings of the fold |
| DhcpOption43.LastOneDecides | base/src/core/config.py:198-243 | each address and name is decided by the last sub-option of its tag alone, valid or not |
| DhcpOption43.LastGoodFlagDecides | base/src/core/config.py:231-243 | the call home flag is the last one that is a single 0 or 1 |
| DhcpOption43.OfferOfAll | base/src/core/config.py:196-243 | what an offer with all five kinds of sub-options says |
| DhcpOption43.DottedReadsBack | base/src/core/config.py:199-200 | the parts between the dots are the bytes in decimal, in order |
| DhcpOption43.TextAt | base/src/core/config.py:216-229 | a name is the characters of its bytes |
| DhcpOption43.DottedIsInjective | base/src/core/config.py:199-200 | the dotted text tells addresses apart |
| DhcpOption43.Config.Reload | base/src/core/config.py:97-139 | the settings are those of all offers in order, from defaults, and the URL follows from them |
| DhcpOption43.UrlPrecedence | base/src/core/config.py:130-135 | in terms of the bytes: name over address over environment |
| DatastoreFiles.MatchPrintsBack | base/src/core/netconf.py:159-176 | the groups of a match print back to the file name and are allowed |
| DatastoreFiles.MatchIsTheBestReading | base/src/core/netconf.py:159-176 | the backtracking matches whenever a reading exists, and finds the unique best one: with prefix, then longest module |
| DatastoreFiles.GetDatastoreFiles | base/src/core/netconf.py:153-189 | the loop, sort and partition return the specified order |
| DatastoreFiles.LoadedAreTheMatching | base/src/core/netconf.py:167-180 | exactly the matching files, each as often as listed |
| DatastoreFiles.LoadingOrder | base/src/core/netconf.py:181-189 | schema-mount files first, names in order within both groups |
| DatastoreFiles.NumberedFilesLoadFirst | README.md:287-289 | within a group, numbered files come before the others if modules are named by YANG identifiers |
| DatastoreFiles.NumbersOfEqualWidthInOrder | README.md:289 | numbers of equal width load in numeric order |
| TextFormats.SecondsToDuration | base/src/util/datetime.py:53-73 | the branches that grow the string produce the specified text |
| TextFormats.DurationRoundTrip | base/src/util/datetime.py:53-73 | parsing the printed duration gives the seconds back, for every number |
| TextFormats.SplitIsNormal | base/src/util/datetime.py:53-73 | hours below 24, minutes and seconds below 60, and the total is kept |
| TextFormats.StripMarkersReturnsBody | base/src/util/crypto.py:261-289 | stripping the markers of a PEM text returns its body, of any number of lines |
| TextFormats.WithoutFinalBreakLastLineIsLost | base/src/util/crypto.py:261-289 | without a final line break the last line of the body is lost, so that only an empty body survives |
| TextFormats.FingerprintRoundTrip | base/src/util/crypto.py:291-304 | the fingerprint decodes to the algorithm byte and the digest |
| SetData.OneModuleOneEdit | base/src/core/netconf.py:65-92 | a call for one module stages one edit: at a path without its last slash, for a tree without the first one too, and with the operation without its mark |
| SetData.Netconf.SetData | base/src/core/netconf.py:65-107 | the recursive call stages its plan of edits and commits once unless marked; the other datastore is untouched |
| SetData.SeveralModulesOneCommit | base/src/core/netconf.py:65-107 | all modules' edits go out in one commit with the plain operation, or nothing is committed |
| SetData.LeftoversGoWithTheNextCommit | base/src/core/netconf.py:94-107 | what an exception left staged is committed with the next call that succeeds |

## Left out

- Sockets, TLS, HTTP, sysrepo, libyang, scapy and subprocess calls: they appear as replies, outcomes or maps that the theorems quantify over; datastore operations of the Call Home server are taken to succeed.
- Floating-point time and time zones: clocks are integers, and UTC is used throughout.
- Rendering by `strftime`: a file name is represented by the two minutes it shows.
- `re.sub` treats backslashes in a replacement specially: the template theorems are for data without '@', and backslash handling is not modelled.
- `find -mmin +n` is taken to delete what is strictly older than n minutes.
- InterruptibleSleep.Clock.Sleep: the flags are seen as set from a given instant on; the hand-over between threads is left to `FaultHandshake`.
- PerformanceManagement.PerformanceManagement.Task: a run is observed up to the instant at which the stop flag is set, which is arbitrary; periods are not negative.
- PerformanceManagement.PerformanceManagement.Content: `strftime` is a function of the instant that the constructor is given, and values are integers.
- ReportTemplate.ContentIsReport: templates with three variables in a row, or with only letters and hyphens between two of them, where the result depends on the values (`ReportTemplate.ThreeInARow`, `ReportTemplate.NameBetweenVariables`).
- ReportReading.ReportReadsBack: blocks that no fixed text precedes, or whose rows begin like the text behind the block.
- DhcpOption43.Config.Reload: the settings taken from environment variables alone are not modelled.
- PerformanceManagement.PerformanceManagement.LoadData: only the path without an explicit configuration, which alone sets the fields.
- FaultManagement.FaultManagement.Task: observed for an arbitrary number of turns; start, stop and a second thread are the subject of `FaultHandshake`.
- FaultHandshake.OneLiveTaskOnItsOwnSteps: there is one REST thread, and the feature is not disabled.
- CallHome.RowsBelongToActiveSessions: the concurrent callback that reads the registry without the lock is not modelled.
- PnfRegistration.Registration.SendInBackground: other senders do not run between its attempts; that is the subject of `Ves.AcceptedAreNumberedInOrder`.
- JsonHeap.Template.UpdateKey: the value put in shares no cell with the tree, and indices are not negative.
- RemoteAddressHeap.Rewrite: endpoints are dictionaries with a name, as the YANG model demands of the data; other shapes raise half-way in the program.
- DatastoreFiles.Match: names without line breaks, ASCII digits, and extensions without regular-expression operators.
- The `o-ran-fm` branches, certificate and key generation, logging, REST routing, heartbeat and expiry threads, and the conversions by libyang and dateutil.
- `ensure_aware`, `datetime_to_yang`, the SSH variant of the allow loop and `ves_notificationwrapper.py`: they would only repeat what is here.
