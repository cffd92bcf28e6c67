/**
 The NETCONF Call Home server of the O-DU: an acceptor, a pool of five workers, the lock-protected
 dictionary of active sessions and the datastore's list of aggregation rows. Each access to shared
 state is a step; datastore operations succeed.
 */
module CallHome {
  import opened Strings

  const MAX_CONNECTIONS := 5

  /** Where a session's handler is; Looked holds the hostname that sync_running has read. */
  datatype Phase =
    | Queued | Starting | Registered | Looked(host: string) | Serving | Closing | Locked | Removed | Finished

  /** synced tells whether the handler has written its row, and not removed it since. */
  datatype Worker = Worker(id: nat, phase: Phase, synced: bool)

  /** Workers in the order their connections were accepted; the pool has begun the first few of them. */
  datatype State = State(nextId: nat, workers: seq<Worker>, begun: nat,
                         active: map<nat, string>, rows: map<string, nat>, lock: Option<nat>, keyError: bool)

  datatype Action =
    | Accept | Begin
    | Register(k: nat, host: string) | Lookup(k: nat) | Write(k: nat) | Fail(k: nat)
    | Lock(k: nat) | Remove(k: nat) | Drop(k: nat)

  const INITIAL := State(1, [], 0, map[], map[], None, false)

  predicate IsRunning(w: Worker) {
    !w.phase.Queued? && !w.phase.Finished?
  }

  function Running(ws: seq<Worker>): nat {
    if ws == [] then 0 else Running(ws[..|ws|-1]) + (if IsRunning(ws[|ws|-1]) then 1 else 0)
  }

  function Finished(ws: seq<Worker>): nat {
    if ws == [] then 0 else Finished(ws[..|ws|-1]) + (if ws[|ws|-1].phase.Finished? then 1 else 0)
  }

  predicate Enabled(s: State, a: Action) {
    match a
    case Accept => true
    case Begin => s.begun < |s.workers| && Running(s.workers) < MAX_CONNECTIONS
    case Register(k, _) => k < |s.workers| && s.workers[k].phase.Starting? && s.lock.None?
    case Lookup(k) => k < |s.workers| && (s.workers[k].phase.Registered? || s.workers[k].phase.Serving?)
    case Write(k) => k < |s.workers| && s.workers[k].phase.Looked?
    case Fail(k) =>
      k < |s.workers| && match s.workers[k].phase {
                           case Starting | Registered | Looked(_) | Serving => true
                           case _ => false
                         }
    case Lock(k) => k < |s.workers| && s.workers[k].phase.Closing? && s.lock.None?
    case Remove(k) => k < |s.workers| && s.workers[k].phase.Locked? && s.workers[k].id in s.active
    case Drop(k) =>
      k < |s.workers| && (s.workers[k].phase.Removed? || (s.workers[k].phase.Locked? && s.workers[k].id !in s.active))
  }

  function At(s: State, k: nat, phase: Phase): State
    requires k < |s.workers|
  {
    s.(workers := s.workers[k := s.workers[k].(phase := phase)])
  }

  function Without<K, V>(m: map<K, V>, key: K): map<K, V> {
    map x | x in m && x != key :: m[x]
  }

  function Do(s: State, a: Action): State
    requires Enabled(s, a)
  {
    match a
    case Accept => s.(workers := s.workers + [Worker(s.nextId, Queued, false)], nextId := s.nextId + 1)
    case Begin => At(s, s.begun, Starting).(begun := s.begun + 1)
    case Register(k, host) => At(s, k, Registered).(active := s.active[s.workers[k].id := host])
    case Lookup(k) =>
      if s.workers[k].id in s.active then At(s, k, Looked(s.active[s.workers[k].id]))
      else At(s, k, Closing).(keyError := true)
    case Write(k) =>
      s.(workers := s.workers[k := s.workers[k].(phase := Serving, synced := true)],
      rows := s.rows[s.workers[k].phase.host := s.workers[k].id])
    case Fail(k) => At(s, k, Closing)
    case Lock(k) => At(s, k, Locked).(lock := Some(s.workers[k].id))
    case Remove(k) =>
      s.(workers := s.workers[k := s.workers[k].(phase := Removed, synced := false)],
      rows := Without(s.rows, s.active[s.workers[k].id]))
    case Drop(k) => At(s, k, Phase.Finished).(active := Without(s.active, s.workers[k].id), lock := None)
  }

  /** An action that is not possible where it stands is skipped. */
  function Next(s: State, a: Action): State {
    if Enabled(s, a) then Do(s, a) else s
  }

  /** An interleaving. */
  function Run(s: State, actions: seq<Action>): State
    decreases |actions|
  {
    if actions == [] then s else Run(Next(s, actions[0]), actions[1..])
  }

  // ---------- the invariant ----------

  predicate Numbered(s: State) {
    && s.nextId == |s.workers| + 1 && s.begun <= |s.workers|
    && forall k :: 0 <= k < |s.workers| ==> s.workers[k].id == k + 1 && (s.workers[k].phase.Queued? <==> k >= s.begun)
  }

  predicate HoldsLock(w: Worker) {
    w.phase.Locked? || w.phase.Removed?
  }

  /** What a worker's phase says about the shared state. */
  predicate WorkerOk(s: State, w: Worker) {
    && (w.phase.Queued? || w.phase.Starting? || w.phase.Finished? ==> w.id !in s.active)
    && (w.phase.Registered? || w.phase.Looked? || w.phase.Serving? || w.phase.Removed? ==> w.id in s.active)
    && (w.phase.Looked? ==> s.active[w.id] == w.phase.host)
    && (HoldsLock(w) <==> s.lock == Some(w.id))
    && (w.synced ==> w.id in s.active && (w.phase.Looked? || w.phase.Serving? || w.phase.Closing? || w.phase.Locked?))
  }

  predicate Known(s: State, id: nat) {
    1 <= id <= |s.workers|
  }

  predicate RowOk(s: State, host: string)
    requires host in s.rows
  {
    Known(s, s.rows[host]) && s.workers[s.rows[host] - 1].synced && s.rows[host] in s.active
      && s.active[s.rows[host]] == host
  }

  predicate Inv(s: State) {
    && Numbered(s) && !s.keyError && Running(s.workers) <= MAX_CONNECTIONS
    && (forall k :: 0 <= k < |s.workers| ==> WorkerOk(s, s.workers[k]))
    && (forall id :: id in s.active ==> Known(s, id)) && (s.lock.Some? ==> Known(s, s.lock.value))
    && (forall host :: host in s.rows ==> RowOk(s, host))
  }

  lemma {:induction false} RunningAfter(ws: seq<Worker>, k: nat, w: Worker)
    requires k < |ws|
    ensures Running(ws[k := w]) == Running(ws) + (if IsRunning(w) then 1 else 0) - (if IsRunning(ws[k]) then 1 else 0)
  {
    var n := |ws| - 1;
    if k < n {
      assert ws[k := w][..n] == ws[..n][k := w];
      RunningAfter(ws[..n], k, w);
    } else {
      assert ws[k := w][..n] == ws[..n];
    }
  }

  lemma RunningOneMore(ws: seq<Worker>, w: Worker)
    ensures Running(ws + [w]) == Running(ws) + (if IsRunning(w) then 1 else 0)
  {
    assert (ws + [w])[..|ws|] == ws;
  }

  lemma DoKeepsPool(s: State, a: Action)
    requires Inv(s) && Enabled(s, a)
    ensures Numbered(Do(s, a)) && Running(Do(s, a).workers) <= MAX_CONNECTIONS
  {
    if a.Accept? {
      RunningOneMore(s.workers, Worker(s.nextId, Queued, false));
    } else {
      var k := if a.Begin? then s.begun else a.k;
      RunningAfter(s.workers, k, Do(s, a).workers[k]);
      assert s.workers[k].id == k + 1;
    }
  }

  lemma DoKeepsWorkers(s: State, a: Action)
    requires Inv(s) && Enabled(s, a)
    ensures var s' := Do(s, a);
            && !s'.keyError
            && (forall k :: 0 <= k < |s'.workers| ==> WorkerOk(s', s'.workers[k]))
            && (forall id :: id in s'.active ==> Known(s', id)) && (s'.lock.Some? ==> Known(s', s'.lock.value))
  {
    var s' := Do(s, a);
    if !a.Accept? && !a.Begin? {
      assert WorkerOk(s, s.workers[a.k]);
    }
    forall k | 0 <= k < |s'.workers|
      ensures WorkerOk(s', s'.workers[k])
    {
      if k < |s.workers| {
        assert WorkerOk(s, s.workers[k]);
      }
    }
  }

  lemma DoKeepsRows(s: State, a: Action)
    requires Inv(s) && Enabled(s, a)
    ensures forall host :: host in Do(s, a).rows ==> RowOk(Do(s, a), host)
  {
  }

  lemma {:induction false} RunKeepsInv(s: State, actions: seq<Action>)
    requires Inv(s)
    ensures Inv(Run(s, actions))
    decreases |actions|
  {
    if actions != [] {
      if Enabled(s, actions[0]) {
        DoKeepsPool(s, actions[0]);
        DoKeepsWorkers(s, actions[0]);
        DoKeepsRows(s, actions[0]);
      }
      RunKeepsInv(Next(s, actions[0]), actions[1..]);
    }
  }

  // ---------- what holds in every reachable state ----------

  /**
   Every aggregation row carries the hostname of a session that is active, and its hardware is that
   session's; no handler ever misses its own entry; ids are those issued, each for one connection.
   */
  lemma RowsBelongToActiveSessions(actions: seq<Action>)
    ensures var s := Run(INITIAL, actions);
            && !s.keyError && (forall k: nat :: Enabled(s, Lookup(k)) ==> s.workers[k].id in s.active)
            && (forall host :: host in s.rows ==> s.rows[host] in s.active && s.active[s.rows[host]] == host)
            && (forall id :: id in s.active ==> 1 <= id < s.nextId)
            && (forall j, k :: 0 <= j < |s.workers| && 0 <= k < |s.workers| && s.workers[j].id == s.workers[k].id ==>
                  j == k)
  {
    RunKeepsInv(INITIAL, actions);
    var s := Run(INITIAL, actions);
    forall k: nat | Enabled(s, Lookup(k))
      ensures s.workers[k].id in s.active
    {
      assert WorkerOk(s, s.workers[k]);
    }
    forall host | host in s.rows
      ensures s.rows[host] in s.active && s.active[s.rows[host]] == host
    {
      assert RowOk(s, host);
    }
  }

  lemma {:induction false} BegunIsRunningOrFinished(ws: seq<Worker>, begun: nat)
    requires begun <= |ws| && forall k :: 0 <= k < |ws| ==> (ws[k].phase.Queued? <==> k >= begun)
    ensures Running(ws) + Finished(ws) == begun
  {
    if ws != [] {
      var n := |ws| - 1;
      BegunIsRunningOrFinished(ws[..n], if begun <= n then begun else n);
    }
  }

  function RunningIds(ws: seq<Worker>): set<nat> {
    set k | 0 <= k < |ws| && IsRunning(ws[k]) :: ws[k].id
  }

  lemma {:induction false} RunningIdsCounted(ws: seq<Worker>)
    ensures |RunningIds(ws)| <= Running(ws)
  {
    if ws != [] {
      var n := |ws| - 1;
      RunningIdsCounted(ws[..n]);
      var more := if IsRunning(ws[n]) then {ws[n].id} else {};
      assert RunningIds(ws) == RunningIds(ws[..n]) + more;
    } else {
      assert RunningIds(ws) == {};
    }
  }

  /** No connection is lost or handled twice, at most five are handled at a time, and at most five are listed. */
  lemma ConnectionsAreConserved(actions: seq<Action>)
    ensures var s := Run(INITIAL, actions);
            && (|s.workers| - s.begun) + Running(s.workers) + Finished(s.workers) == s.nextId - 1
            && |s.active| <= Running(s.workers) <= MAX_CONNECTIONS
  {
    RunKeepsInv(INITIAL, actions);
    var s := Run(INITIAL, actions);
    BegunIsRunningOrFinished(s.workers, s.begun);
    RunningIdsCounted(s.workers);
    forall id | id in s.active
      ensures id in RunningIds(s.workers)
    {
      assert WorkerOk(s, s.workers[id - 1]);
      assert s.workers[id - 1].id == id;
    }
    Subset(s.active.Keys, RunningIds(s.workers));
  }

  lemma {:induction false} Subset(a: set<nat>, b: set<nat>)
    requires a <= b
    ensures |a| <= |b|
  {
    if x :| x in a {
      Subset(a - {x}, b - {x});
    }
  }

  lemma ListedHandlersAreUnfinished(s: State, id: nat)
    requires Inv(s) && (id in s.active || s.lock == Some(id))
    ensures Known(s, id) && !s.workers[id - 1].phase.Finished?
  {
    assert WorkerOk(s, s.workers[id - 1]);
  }

  /** When every handler has finished, nothing is left in the dictionary or in the datastore. */
  lemma NothingIsLeftBehind(actions: seq<Action>)
    requires AllFinished(Run(INITIAL, actions))
    ensures var s := Run(INITIAL, actions); s.active == map[] && s.rows == map[] && s.lock.None?
  {
    RunKeepsInv(INITIAL, actions);
    var s := Run(INITIAL, actions);
    forall id | id in s.active || s.lock == Some(id)
      ensures false
    {
      ListedHandlersAreUnfinished(s, id);
    }
    forall host | host in s.rows
      ensures s.rows[host] in s.active
    {
      assert RowOk(s, host);
    }
    assert s.lock != None ==> exists id :: s.lock == Some(id);
  }

  // ---------- every session can end ----------

  /** The steps of a handler whose session is over, or fails; those that are behind it are skipped. */
  function Leaving(k: nat): seq<Action> {
    [Fail(k), Lock(k), Remove(k), Drop(k)]
  }

  /** The phases in which the device can hang up. */
  predicate CanFail(phase: Phase) {
    phase.Starting? || phase.Registered? || phase.Looked? || phase.Serving?
  }

  /** The session of worker k is gone: its handler has finished, and its entry and its hostname's row are removed. */
  function Gone(s: State, k: nat): State
    requires k < |s.workers|
  {
    var id := s.workers[k].id;
    State(s.nextId, s.workers[k := s.workers[k].(phase := Phase.Finished, synced := false)], s.begun,
          Without(s.active, id), if id in s.active then Without(s.rows, s.active[id]) else s.rows, None, s.keyError)
  }

  lemma RunFour(s: State, a: Action, b: Action, c: Action, d: Action)
    ensures Run(s, [a, b, c, d]) == Next(Next(Next(Next(s, a), b), c), d)
  {
    var s1 := Next(s, a);
    var s2 := Next(s1, b);
    assert [a, b, c, d][1..] == [b, c, d];
    RunThree(s1, s2, Next(s2, c), b, c, d);
  }

  /** Wherever a handler stands, with the lock free the device can hang up, and four steps later the session is gone. */
  lemma HangUpLeaves(s: State, k: nat)
    requires Inv(s) && s.lock.None? && k < |s.workers| && CanFail(s.workers[k].phase)
    ensures Enabled(s, Fail(k)) && Run(s, Leaving(k)) == Gone(s, k)
  {
    var w := s.workers[k];
    assert WorkerOk(s, w);
    var closing := At(s, k, Closing);
    RunFour(s, Fail(k), Lock(k), Remove(k), Drop(k));
    assert Next(s, Fail(k)) == closing;
    ClosingLeaves(closing, k);
    assert Gone(closing, k) == Gone(s, k);
  }

  /** A handler at the end of its session takes the lock, removes its row and its entry, and is done. */
  lemma ClosingLeaves(s: State, k: nat)
    requires s.lock.None? && k < |s.workers| && s.workers[k].phase.Closing?
    requires s.workers[k].synced ==> s.workers[k].id in s.active
    ensures Next(Next(Next(s, Lock(k)), Remove(k)), Drop(k)) == Gone(s, k)
  {
    var w := s.workers[k];
    var locked := At(s, k, Locked).(lock := Some(w.id));
    assert Next(s, Lock(k)) == locked;
    LockedLeaves(locked, k);
    assert Gone(locked, k) == Gone(s, k);
  }

  lemma LockedLeaves(s: State, k: nat)
    requires k < |s.workers| && s.workers[k].phase.Locked?
    requires s.workers[k].synced ==> s.workers[k].id in s.active
    ensures Next(Next(s, Remove(k)), Drop(k)) == Gone(s, k)
  {
    var w := s.workers[k];
    if w.id in s.active {
      var removed := s.(workers := s.workers[k := w.(phase := Removed, synced := false)],
                        rows := Without(s.rows, s.active[w.id]));
      assert Next(s, Remove(k)) == removed;
      assert removed.workers[k := removed.workers[k].(phase := Phase.Finished)] == Gone(s, k).workers;
    } else {
      assert Next(s, Remove(k)) == s && w.(phase := Phase.Finished) == w.(phase := Phase.Finished, synced := false);
    }
  }

  /** A handler that runs, and is not kept waiting by another one's lock, gets to its end. */
  lemma RunningFinishes(s: State, k: nat)
    requires Inv(s) && k < |s.workers| && IsRunning(s.workers[k]) && (s.lock.None? || HoldsLock(s.workers[k]))
    ensures var s' := Run(s, Leaving(k));
            && |s'.workers| == |s.workers| && s'.workers == s.workers[k := s'.workers[k]]
            && s'.workers[k].phase.Finished? && s'.lock.None?
  {
    var w := s.workers[k];
    assert WorkerOk(s, w);
    RunFour(s, Fail(k), Lock(k), Remove(k), Drop(k));
    if CanFail(w.phase) {
      HangUpLeaves(s, k);
    } else if w.phase.Closing? {
      assert Next(s, Fail(k)) == s;
      ClosingLeaves(s, k);
    } else if w.phase.Locked? {
      assert Next(s, Fail(k)) == s && Next(s, Lock(k)) == s;
      LockedLeaves(s, k);
    } else {
      assert Next(s, Fail(k)) == s && Next(s, Lock(k)) == s && Next(s, Remove(k)) == s;
    }
  }

  lemma {:induction false} FinishedAfter(ws: seq<Worker>, k: nat, w: Worker)
    requires k < |ws| && w.phase.Finished? && !ws[k].phase.Finished?
    ensures Finished(ws[k := w]) == Finished(ws) + 1
  {
    var n := |ws| - 1;
    if k < n {
      assert ws[k := w][..n] == ws[..n][k := w];
      FinishedAfter(ws[..n], k, w);
    } else {
      assert ws[k := w][..n] == ws[..n];
    }
  }

  lemma {:induction false} FinishedAtMostAll(ws: seq<Worker>)
    ensures Finished(ws) <= |ws|
    ensures (exists k :: 0 <= k < |ws| && !ws[k].phase.Finished?) ==> Finished(ws) < |ws|
  {
    if ws != [] {
      FinishedAtMostAll(ws[..|ws|-1]);
    }
  }

  lemma {:induction false} NoneRuns(ws: seq<Worker>)
    requires forall k :: 0 <= k < |ws| ==> !IsRunning(ws[k])
    ensures Running(ws) == 0
  {
    if ws != [] {
      NoneRuns(ws[..|ws|-1]);
    }
  }

  predicate AllFinished(s: State) {
    forall k :: 0 <= k < |s.workers| ==> s.workers[k].phase.Finished?
  }

  predicate NoneAccepted(actions: seq<Action>) {
    forall a :: a in actions ==> !a.Accept?
  }

  /** Some unfinished handler can go to its end now: the one with the lock, one that runs, or the next in the queue. */
  lemma OneMoreFinishes(s: State) returns (k: nat, actions: seq<Action>)
    requires Inv(s) && !AllFinished(s)
    ensures k < |s.workers| && !s.workers[k].phase.Finished? && NoneAccepted(actions)
    ensures var s' := Run(s, actions);
            && |s'.workers| == |s.workers| && s'.workers == s.workers[k := s'.workers[k]]
            && s'.workers[k].phase.Finished?
  {
    if s.lock.Some? {
      k := s.lock.value - 1;
      assert WorkerOk(s, s.workers[k]);
      actions := Leaving(k);
      RunningFinishes(s, k);
    } else if running :| 0 <= running < |s.workers| && IsRunning(s.workers[running]) {
      k, actions := running, Leaving(running);
      RunningFinishes(s, k);
    } else {
      k := s.begun;
      NoneRuns(s.workers);
      var unfinished :| 0 <= unfinished < |s.workers| && !s.workers[unfinished].phase.Finished?;
      assert Enabled(s, Begin);
      var begun := Next(s, Begin);
      RunKeepsInv(s, [Begin]);
      assert Run(s, [Begin]) == begun;
      RunningFinishes(begun, k);
      RunInTwo(s, [Begin], Leaving(k));
      actions := [Begin] + Leaving(k);
    }
  }

  /** From any state all handlers can finish without a new connection, however many are queued. */
  lemma {:induction false} AllCanFinish(s: State) returns (actions: seq<Action>)
    requires Inv(s)
    ensures NoneAccepted(actions) && AllFinished(Run(s, actions)) && |Run(s, actions).workers| == |s.workers|
    decreases |s.workers| - Finished(s.workers)
  {
    FinishedAtMostAll(s.workers);
    if AllFinished(s) {
      actions := [];
    } else {
      var k, first := OneMoreFinishes(s);
      var s' := Run(s, first);
      RunKeepsInv(s, first);
      FinishedAfter(s.workers, k, s'.workers[k]);
      FinishedAtMostAll(s'.workers);
      var rest := AllCanFinish(s');
      RunInTwo(s, first, rest);
      actions := first + rest;
    }
  }

  /**
   From every reachable state some continuation without a new connection brings every handler to its end; the
   dictionary, the datastore's list and the lock are then as at the start.
   */
  lemma EverySessionCanEnd(actions: seq<Action>)
    ensures exists more ::
              && NoneAccepted(more) && AllFinished(Run(INITIAL, actions + more))
              && |Run(INITIAL, actions + more).workers| == |Run(INITIAL, actions).workers|
              && var s := Run(INITIAL, actions + more); s.active == map[] && s.rows == map[] && s.lock.None?
  {
    RunKeepsInv(INITIAL, actions);
    var more := AllCanFinish(Run(INITIAL, actions));
    RunInTwo(INITIAL, actions, more);
    NothingIsLeftBehind(actions + more);
  }

  /** In every reachable state with the lock free, a device that hangs up takes its entry and its row with it. */
  lemma HangingUpEndsTheSession(actions: seq<Action>, k: nat)
    requires var s := Run(INITIAL, actions);
             s.lock.None? && k < |s.workers| && CanFail(s.workers[k].phase)
    ensures var (s, s') := (Run(INITIAL, actions), Run(INITIAL, actions + [Fail(k), Lock(k), Remove(k), Drop(k)]));
            && s'.workers == s.workers[k := Worker(s.workers[k].id, Phase.Finished, false)] && s'.lock.None?
            && s'.active == Without(s.active, s.workers[k].id) && s.workers[k].id !in s'.active
            && (s.workers[k].id in s.active ==> s.active[s.workers[k].id] !in s'.rows)
            && s'.rows == (if s.workers[k].id in s.active then Without(s.rows, s.active[s.workers[k].id]) else s.rows)
  {
    RunKeepsInv(INITIAL, actions);
    RunInTwo(INITIAL, actions, Leaving(k));
    HangUpLeaves(Run(INITIAL, actions), k);
  }

  // ---------- the list mirrors the synced sessions ----------

  predicate RowOf(s: State, w: Worker) {
    w.id in s.active && s.active[w.id] in s.rows && s.rows[s.active[w.id]] == w.id
  }

  /** The rows are exactly those of the synced sessions. */
  predicate Mirrors(s: State) {
    forall k :: 0 <= k < |s.workers| && s.workers[k].synced ==> RowOf(s, s.workers[k])
  }

  /** Another synced session uses the hostname that worker k is about to write or remove. */
  predicate Clash(s: State, k: nat)
    requires k < |s.workers| && s.workers[k].id in s.active
  {
    exists j :: 0 <= j < |s.workers| && j != k && s.workers[j].synced && s.workers[j].id in s.active
                && s.active[s.workers[j].id] == s.active[s.workers[k].id]
  }

  lemma ClashBreaksTheMirror(s: State, a: Action)
    requires Inv(s) && Enabled(s, a) && (a.Write? || a.Remove?) && s.workers[a.k].id in s.active && Clash(s, a.k)
    ensures !Mirrors(Do(s, a))
  {
    var j :| 0 <= j < |s.workers| && j != a.k && s.workers[j].synced && s.workers[j].id in s.active
             && s.active[s.workers[j].id] == s.active[s.workers[a.k].id];
    assert WorkerOk(s, s.workers[a.k]);
    assert Do(s, a).workers[j] == s.workers[j] && !RowOf(Do(s, a), Do(s, a).workers[j]);
  }

  lemma RowStays(s: State, a: Action, k: nat)
    requires Inv(s) && Mirrors(s) && Enabled(s, a) && k < |Do(s, a).workers| && Do(s, a).workers[k].synced
    requires (a.Write? || a.Remove?) ==> s.workers[a.k].id in s.active && !Clash(s, a.k)
    ensures RowOf(Do(s, a), Do(s, a).workers[k])
  {
    assert WorkerOk(s, s.workers[k]);
    if !a.Accept? && !a.Begin? {
      assert WorkerOk(s, s.workers[a.k]);
    }
  }

  /**
   An action breaks the mirror exactly when it writes or removes the row of a hostname that another synced session
   shares.
   */
  lemma MirrorBreaksIff(s: State, a: Action)
    requires Inv(s) && Mirrors(s) && Enabled(s, a)
    ensures (a.Write? || a.Remove?) ==> s.workers[a.k].id in s.active
    ensures Mirrors(Do(s, a)) <==> !((a.Write? || a.Remove?) && Clash(s, a.k))
  {
    var s' := Do(s, a);
    if !a.Accept? && !a.Begin? {
      assert WorkerOk(s, s.workers[a.k]);
    }
    if (a.Write? || a.Remove?) && Clash(s, a.k) {
      ClashBreaksTheMirror(s, a);
    } else {
      forall k: nat | k < |s'.workers| && s'.workers[k].synced
        ensures RowOf(s', s'.workers[k])
      {
        RowStays(s, a, k);
      }
    }
  }

  /** No two active sessions have the same hostname. */
  predicate DistinctHosts(s: State) {
    forall i, j :: i in s.active && j in s.active && s.active[i] == s.active[j] ==> i == j
  }

  /** Hostnames are distinct in every state of an interleaving. */
  predicate AlwaysDistinct(s: State, actions: seq<Action>)
    decreases |actions|
  {
    DistinctHosts(s) && (actions != [] ==> AlwaysDistinct(Next(s, actions[0]), actions[1..]))
  }

  lemma {:induction false} DistinctHostsMirror(s: State, actions: seq<Action>)
    requires Inv(s) && Mirrors(s) && AlwaysDistinct(s, actions)
    ensures Inv(Run(s, actions)) && Mirrors(Run(s, actions))
    decreases |actions|
  {
    if actions != [] {
      if Enabled(s, actions[0]) {
        RunKeepsInv(s, [actions[0]]);
        assert Run(s, [actions[0]]) == Do(s, actions[0]);
        MirrorBreaksIff(s, actions[0]);
      }
      DistinctHostsMirror(Next(s, actions[0]), actions[1..]);
    }
  }

  /** The row with this hostname is that of session id. */
  predicate Lists(s: State, id: nat, host: string) {
    host in s.rows && s.rows[host] == id
  }

  predicate SyncedAs(s: State, id: nat, host: string) {
    id in s.active && s.active[id] == host && Known(s, id) && s.workers[id - 1].synced
  }

  lemma MirrorIsExact(s: State, id: nat, host: string)
    requires Numbered(s) && (forall host :: host in s.rows ==> RowOk(s, host)) && Mirrors(s)
    ensures Lists(s, id, host) <==> SyncedAs(s, id, host)
  {
    if SyncedAs(s, id, host) {
      assert s.workers[id - 1].id == id && RowOf(s, s.workers[id - 1]);
    }
    if Lists(s, id, host) {
      assert RowOk(s, host);
    }
  }

  /**
   As long as the devices' hostnames are distinct, the datastore lists exactly the sessions that have
   synchronized and not yet been removed, each under its own hostname.
   */
  lemma RowsAreTheSyncedSessions(actions: seq<Action>)
    requires AlwaysDistinct(INITIAL, actions)
    ensures forall id: nat, host: string ::
              Lists(Run(INITIAL, actions), id, host) <==> SyncedAs(Run(INITIAL, actions), id, host)
  {
    hide Run, AlwaysDistinct, Lists, SyncedAs;
    DistinctHostsMirror(INITIAL, actions);
    forall id: nat, host: string
      ensures Lists(Run(INITIAL, actions), id, host) <==> SyncedAs(Run(INITIAL, actions), id, host)
    {
      MirrorIsExact(Run(INITIAL, actions), id, host);
    }
  }

  lemma {:induction false} RunInTwo(s: State, a: seq<Action>, b: seq<Action>)
    ensures Run(s, a + b) == Run(Run(s, a), b)
    decreases |a|
  {
    if a == [] {
      assert a + b == b;
    } else {
      assert (a + b)[1..] == a[1..] + b;
      RunInTwo(Next(s, a[0]), a[1..], b);
    }
  }

  function Arrivals(host: string): seq<Action> {
    [Accept, Begin, Register(0, host)] + [Accept, Begin, Register(1, host)]
  }

  const FIRST_LEAVES := [Fail(0), Lock(0), Remove(0), Drop(0)]

  function BothRegistered(host: string): State {
    State(3, [Worker(1, Registered, false), Worker(2, Registered, false)], 2, map[1 := host, 2 := host],
        map[], None, false)
  }

  function SecondSynced(host: string): State {
    State(3, [Worker(1, Registered, false), Worker(2, Serving, true)], 2, map[1 := host, 2 := host],
        map[host := 2], None, false)
  }

  lemma RunThree(s0: State, s1: State, s2: State, a0: Action, a1: Action, a2: Action)
    requires Next(s0, a0) == s1 && Next(s1, a1) == s2
    ensures Run(s0, [a0, a1, a2]) == Next(s2, a2)
  {
    assert Run(s2, [a2]) == Next(s2, a2);
    assert Run(s1, [a1, a2]) == Run(s2, [a2]);
  }

  function FirstRegistered(host: string): State {
    State(2, [Worker(1, Registered, false)], 1, map[1 := host], map[], None, false)
  }

  lemma FirstRegisters(host: string)
    ensures Run(INITIAL, [Accept, Begin, Register(0, host)]) == FirstRegistered(host)
  {
    var s1 := State(2, [Worker(1, Queued, false)], 0, map[], map[], None, false);
    var s2 := State(2, [Worker(1, Starting, false)], 1, map[], map[], None, false);
    RunningOneMore([], Worker(1, Queued, false));
    assert s1.workers == [] + [Worker(1, Queued, false)];
    assert Next(INITIAL, Accept) == s1 && Next(s1, Begin) == s2;
    RunThree(INITIAL, s1, s2, Accept, Begin, Register(0, host));
  }

  lemma SecondRegisters(host: string)
    ensures Run(FirstRegistered(host), [Accept, Begin, Register(1, host)]) == BothRegistered(host)
  {
    var s0 := FirstRegistered(host);
    var s1 := s0.(nextId := 3, workers := [Worker(1, Registered, false), Worker(2, Queued, false)]);
    var s2 := s1.(begun := 2, workers := [Worker(1, Registered, false), Worker(2, Starting, false)]);
    assert s1.workers[..1] == s0.workers && s0.workers[..0] == [];
    RunThree(s0, s1, s2, Accept, Begin, Register(1, host));
  }

  lemma SecondSyncs(host: string)
    ensures Run(BothRegistered(host), [Lookup(1), Write(1)]) == SecondSynced(host)
  {
  }

  lemma FirstLeaves(first: Worker, second: Worker, host: string)
    requires first == Worker(1, Registered, false) && second == Worker(2, Serving, true)
    ensures Run(SecondSynced(host), FIRST_LEAVES)
         == State(3, [first.(phase := Phase.Finished), second], 2, map[2 := host], map[], None, false)
  {
  }

  /** Two devices call themselves by the same name; when the first leaves, the second has lost its row. */
  lemma SharedHostnameLosesARow(host: string)
    ensures var s := Run(INITIAL, Arrivals(host) + ([Lookup(1), Write(1)] + FIRST_LEAVES));
            && s.active == map[2 := host] && s.rows == map[]
            && s.workers == [Worker(1, Phase.Finished, false), Worker(2, Serving, true)]
  {
    FirstRegisters(host);
    SecondRegisters(host);
    RunInTwo(INITIAL, [Accept, Begin, Register(0, host)], [Accept, Begin, Register(1, host)]);
    RunInTwo(INITIAL, Arrivals(host), [Lookup(1), Write(1)] + FIRST_LEAVES);
    SecondSyncs(host);
    RunInTwo(BothRegistered(host), [Lookup(1), Write(1)], FIRST_LEAVES);
    FirstLeaves(Worker(1, Registered, false), Worker(2, Serving, true), host);
  }
}
