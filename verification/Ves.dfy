/**
 Sending VES messages: one lock, one sequence number shared by all threads, and the notification id
 that each file-ready message takes when it is stamped. The collector's replies are arbitrary.
 */
module Ves {
  import opened Strings

  datatype Kind = Plain | FileReady

  datatype Message = Message(kind: Kind, sequence: nat, notification: Option<nat>)

  /** What becomes of a POST; NoUrl when no collector is configured, in which case nothing is sent. */
  datatype Reply = Acknowledged | Refused | ReplyLost | SendFailed | NoUrl

  predicate Success(r: Reply) {
    r.Acknowledged? || r.NoUrl?
  }

  predicate Arrives(r: Reply) {
    r.Acknowledged? || r.Refused? || r.ReplyLost?
  }

  /** The two counters; update() stamps a message from them. */
  datatype Counters = Counters(sequence: nat, notification: nat)

  function Stamped(c: Counters, kind: Kind): (Message, Counters) {
    match kind
    case Plain => (Message(Plain, c.sequence, None), c)
    case FileReady => (Message(FileReady, c.sequence, Some(c.notification + 1)), c.(notification := c.notification + 1))
  }

  // ---------- one call ----------

  class Ves {
    var seqId: nat
    var notificationId: nat

    constructor ()
      ensures State() == Counters(0, 0)
    {
      seqId, notificationId := 0, 0;
    }

    function State(): Counters
      reads this
    {
      Counters(seqId, notificationId)
    }

    /** VesMessage.update, and VesFileReady.update on top of it. */
    method Update(kind: Kind) returns (m: Message)
      modifies `notificationId
      ensures (m, State()) == Stamped(old(State()), kind)
    {
      m := Message(kind, seqId, None);
      if kind == FileReady {
        notificationId := notificationId + 1;
        m := m.(notification := Some(notificationId));
      }
    }

    method Execute(kind: Kind, reply: Reply) returns (result: bool, raised: bool, m: Message)
      modifies this
      ensures m == Stamped(old(State()), kind).0
      ensures State() == if result then Stamped(old(State()), kind).1.(sequence := old(seqId) + 1)
              else Stamped(old(State()), kind).1
      ensures result == Success(reply) && raised == (reply.ReplyLost? || reply.SendFailed?)
    {
      result, raised := false, false;
      m := Update(kind);
      if reply != NoUrl {
        match reply {
          case Acknowledged => result := true;
          case Refused =>
          case _ => return false, true, m;
        }
      } else {
        result := true;
      }
      if result {
        seqId := seqId + 1;
      }
    }
  }

  // ---------- all interleavings ----------

  /** Where a thread is in execute: outside, with the lock taken, with its message stamped, or with a reply. */
  datatype Pc = Outside | Entered(kind: Kind) | Sending(m: Message) | Replied(m: Message, ok: bool)

  datatype Arrival = Arrival(m: Message, acknowledged: bool)

  /**
   The shared state and the history: messages stamped, messages execute reports as sent, and what the collector got.
   */
  datatype System = System(counters: Counters, lock: Option<nat>, threads: seq<Pc>,
                           stamped: seq<Message>, accepted: seq<Message>, received: seq<Arrival>)

  datatype Action = Enter(t: nat, kind: Kind) | Stamp(t: nat) | Post(t: nat, reply: Reply) | Leave(t: nat)

  predicate Enabled(s: System, a: Action) {
    && a.t < |s.threads|
    && match a {
         case Enter(t, _) => s.threads[t].Outside? && s.lock.None?
         case Stamp(t) => s.threads[t].Entered?
         case Post(t, _) => s.threads[t].Sending?
         case Leave(t) => s.threads[t].Replied?
       }
  }

  function Do(s: System, a: Action): System
    requires Enabled(s, a)
  {
    match a
    case Enter(t, kind) => s.(threads := s.threads[t := Entered(kind)], lock := Some(t))
    case Stamp(t) =>
      var (m, counters) := Stamped(s.counters, s.threads[t].kind);
      s.(threads := s.threads[t := Sending(m)], counters := counters, stamped := s.stamped + [m])
    case Post(t, reply) =>
      var m := s.threads[t].m;
      s.(threads := s.threads[t := Replied(m, Success(reply))],
      accepted := if Success(reply) then s.accepted + [m] else s.accepted,
      received := if Arrives(reply) then s.received + [Arrival(m, reply.Acknowledged?)] else s.received)
    case Leave(t) =>
      s.(threads := s.threads[t := Outside], lock := None,
      counters := if s.threads[t].ok then s.counters.(sequence := s.counters.sequence + 1) else s.counters)
  }

  /** An interleaving; an action that is not possible where its thread stands is skipped. */
  function Run(s: System, actions: seq<Action>): System
    decreases |actions|
  {
    if actions == [] then s else Run(if Enabled(s, actions[0]) then Do(s, actions[0]) else s, actions[1..])
  }

  function Initial(threads: nat): System {
    System(Counters(0, 0), None, seq(threads, i => Outside), [], [], [])
  }

  predicate CountedFrom0(ms: seq<Message>) {
    forall i :: 0 <= i < |ms| ==> ms[i].sequence == i
  }

  /** Whoever is inside holds the lock; a message under way carries the current number. */
  predicate ThreadOk(s: System, t: nat)
    requires t < |s.threads|
  {
    match s.threads[t]
    case Outside => s.lock != Some(t)
    case Entered(_) => s.lock == Some(t)
    case Sending(m) => s.lock == Some(t) && m.sequence == s.counters.sequence
    case Replied(m, _) => s.lock == Some(t) && m.sequence == s.counters.sequence
  }

  predicate Bumping(s: System) {
    s.lock.Some? && s.lock.value < |s.threads| && s.threads[s.lock.value].Replied? && s.threads[s.lock.value].ok
  }

  predicate Inv(s: System) {
    && (forall t :: 0 <= t < |s.threads| ==> ThreadOk(s, t))
    && (s.lock.Some? ==> s.lock.value < |s.threads|)
    && CountedFrom0(s.accepted) && |s.accepted| == s.counters.sequence + (if Bumping(s) then 1 else 0)
  }

  lemma DoKeepsInv(s: System, a: Action)
    requires Inv(s) && Enabled(s, a)
    ensures Inv(Do(s, a))
  {
    var s' := Do(s, a);
    assert ThreadOk(s, a.t);
    forall t | 0 <= t < |s'.threads|
      ensures ThreadOk(s', t)
    {
      assert ThreadOk(s, t);
    }
  }

  lemma {:induction false} RunKeepsInv(s: System, actions: seq<Action>)
    requires Inv(s)
    ensures Inv(Run(s, actions)) && |Run(s, actions).threads| == |s.threads|
    decreases |actions|
  {
    if actions != [] {
      if Enabled(s, actions[0]) {
        DoKeepsInv(s, actions[0]);
      }
      RunKeepsInv(if Enabled(s, actions[0]) then Do(s, actions[0]) else s, actions[1..]);
    }
  }

  /**
   For any threads, interleaving and replies: one thread at a time is inside execute, and the messages it
   reports as sent carry the numbers 0, 1, 2, … in the order they were sent.
   */
  lemma AcceptedAreNumberedInOrder(threads: nat, actions: seq<Action>)
    ensures var s := Run(Initial(threads), actions);
            && CountedFrom0(s.accepted)
            && forall t, u ::
                 0 <= t < |s.threads| && 0 <= u < |s.threads| && !s.threads[t].Outside? && !s.threads[u].Outside? ==>
                   t == u
  {
    RunKeepsInv(Initial(threads), actions);
    var s := Run(Initial(threads), actions);
    forall t, u | 0 <= t < |s.threads| && 0 <= u < |s.threads| && !s.threads[t].Outside? && !s.threads[u].Outside?
      ensures t == u
    {
      assert ThreadOk(s, t) && ThreadOk(s, u);
    }
  }

  // ---------- notification ids ----------

  function Notifications(ms: seq<Message>): seq<nat> {
    if ms == [] then []
    else Notifications(ms[..|ms|-1]) + (if ms[|ms|-1].notification.Some? then [ms[|ms|-1].notification.value] else [])
  }

  predicate OneTo(ids: seq<nat>, n: nat) {
    |ids| == n && forall i :: 0 <= i < n ==> ids[i] == i + 1
  }

  lemma StampNumbers(stamped: seq<Message>, m: Message, n: nat)
    requires OneTo(Notifications(stamped), n) && (m.notification.Some? ==> m.notification.value == n + 1)
    ensures OneTo(Notifications(stamped + [m]), if m.notification.Some? then n + 1 else n)
  {
    assert (stamped + [m])[..|stamped|] == stamped;
  }

  lemma {:induction false} RunNumbersNotifications(s: System, actions: seq<Action>)
    requires OneTo(Notifications(s.stamped), s.counters.notification)
    ensures OneTo(Notifications(Run(s, actions).stamped), Run(s, actions).counters.notification)
    decreases |actions|
  {
    if actions != [] {
      if Enabled(s, actions[0]) && actions[0].Stamp? {
        StampNumbers(s.stamped, Stamped(s.counters, s.threads[actions[0].t].kind).0, s.counters.notification);
      }
      RunNumbersNotifications(if Enabled(s, actions[0]) then Do(s, actions[0]) else s, actions[1..]);
    }
  }

  /** Every attempt to send a file-ready message takes the next notification id, whether it succeeds or not. */
  lemma NotificationIdsCountAttempts(threads: nat, actions: seq<Action>)
    ensures var s := Run(Initial(threads), actions); OneTo(Notifications(s.stamped), s.counters.notification)
  {
    RunNumbersNotifications(Initial(threads), actions);
  }

  // ---------- what the collector sees ----------

  /** The number that follows an arrival: the next one if it was acknowledged, the same again if not. */
  function After(a: Arrival): nat {
    a.m.sequence + (if a.acknowledged then 1 else 0)
  }

  ghost predicate Continuous(received: seq<Arrival>) {
    && (received != [] ==> received[0].m.sequence == 0)
    && forall i, j :: 0 <= i < j < |received| && j == i + 1 ==> received[j].m.sequence == After(received[i])
  }

  function Expected(received: seq<Arrival>): nat {
    if received == [] then 0 else After(received[|received|-1])
  }

  ghost predicate CollectorInv(s: System) {
    Continuous(s.received) && Expected(s.received) == s.counters.sequence + (if Bumping(s) then 1 else 0)
  }

  predicate HasUrl(a: Action) {
    a.Post? ==> !a.reply.NoUrl?
  }

  lemma DoKeepsCollectorInv(s: System, a: Action)
    requires Inv(s) && CollectorInv(s) && Enabled(s, a) && HasUrl(a)
    ensures CollectorInv(Do(s, a))
  {
    assert ThreadOk(s, a.t);
    var s' := Do(s, a);
    if a.Post? && Arrives(a.reply) {
      var n := |s.received|;
      assert s'.received[n].m.sequence == Expected(s.received);
      assert forall i :: 0 <= i < n ==> s'.received[i] == s.received[i];
    }
  }

  lemma {:induction false} RunKeepsCollectorInv(s: System, actions: seq<Action>)
    requires Inv(s) && CollectorInv(s) && forall a :: a in actions ==> HasUrl(a)
    ensures CollectorInv(Run(s, actions))
    decreases |actions|
  {
    if actions != [] {
      assert actions[0] in actions && forall a :: a in actions[1..] ==> a in actions;
      if Enabled(s, actions[0]) {
        DoKeepsInv(s, actions[0]);
        DoKeepsCollectorInv(s, actions[0]);
      }
      RunKeepsCollectorInv(if Enabled(s, actions[0]) then Do(s, actions[0]) else s, actions[1..]);
    }
  }

  /**
   The collector sees the numbers from 0 on without a gap, and a number again exactly when the message
   before was not acknowledged to the sender, be it refused or its reply lost.
   */
  lemma CollectorRepeatsOnlyTheUnacknowledged(threads: nat, actions: seq<Action>)
    requires forall a :: a in actions ==> HasUrl(a)
    ensures Continuous(Run(Initial(threads), actions).received)
  {
    RunKeepsCollectorInv(Initial(threads), actions);
  }

  lemma RunThree(s0: System, s1: System, s2: System, s3: System, a0: Action, a1: Action, a2: Action)
    requires s1 == (if Enabled(s0, a0) then Do(s0, a0) else s0)
    requires s2 == (if Enabled(s1, a1) then Do(s1, a1) else s1)
    requires s3 == (if Enabled(s2, a2) then Do(s2, a2) else s2)
    ensures Run(s0, [a0, a1, a2]) == s3
  {
    assert Run(s2, [a2]) == s3;
    assert Run(s1, [a1, a2]) == Run(s2, [a2]);
  }

  /** A thread that is inside gets out by its own steps. */
  lemma InsideGetsOut(s: System, t: nat, reply: Reply)
    requires t < |s.threads|
    ensures var s' := Run(s, [Stamp(t), Post(t, reply), Leave(t)]);
            if s.threads[t].Outside? then s' == s else s'.threads == s.threads[t := Outside] && s'.lock.None?
  {
    var s1 := if Enabled(s, Stamp(t)) then Do(s, Stamp(t)) else s;
    var s2 := if Enabled(s1, Post(t, reply)) then Do(s1, Post(t, reply)) else s1;
    var s3 := if Enabled(s2, Leave(t)) then Do(s2, Leave(t)) else s2;
    RunThree(s, s1, s2, s3, Stamp(t), Post(t, reply), Leave(t));
    assert s1.threads == s.threads[t := s1.threads[t]] && s2.threads == s.threads[t := s2.threads[t]];
    assert !s.threads[t].Outside? ==> s2.threads[t].Replied?;
  }

  /**
   In every reachable state the thread inside, if there is one, gets out by its own steps, whatever the reply: the
   others are as before, nobody is inside, and the lock is free for the next call.
   */
  lemma EveryCallCanEnd(threads: nat, actions: seq<Action>, t: nat, reply: Reply)
    requires t < threads && Run(Initial(threads), actions).lock in {None, Some(t)}
    ensures var s := Run(Initial(threads), actions);
            var s' := Run(s, [Stamp(t), Post(t, reply), Leave(t)]);
            && |s'.threads| == |s.threads| == threads && s'.lock.None?
            && forall u :: 0 <= u < threads ==> s'.threads[u].Outside?
  {
    hide Run;
    RunKeepsInv(Initial(threads), actions);
    var s := Run(Initial(threads), actions);
    forall u | 0 <= u < threads
      ensures u == t || s.threads[u].Outside?
    {
      assert ThreadOk(s, u);
    }
    assert ThreadOk(s, t);
    InsideGetsOut(s, t, reply);
  }

  /** A call that no other thread gets between is the method Execute. */
  lemma ACallIsExecute(s: System, t: nat, kind: Kind, reply: Reply)
    requires t < |s.threads| && s.threads[t].Outside? && s.lock.None?
    ensures var s' := Run(s, [Enter(t, kind), Stamp(t), Post(t, reply), Leave(t)]);
            var (m, stamped) := Stamped(s.counters, kind);
            && s'.counters == (if Success(reply) then stamped.(sequence := s.counters.sequence + 1) else stamped)
            && s'.threads == s.threads && s'.lock.None?
            && s'.stamped == s.stamped + [m] && s'.accepted == (if Success(reply) then s.accepted + [m] else s.accepted)
  {
    var s1 := Do(s, Enter(t, kind));
    var s2 := Do(s1, Stamp(t));
    var s3 := Do(s2, Post(t, reply));
    var s4 := Do(s3, Leave(t));
    assert s4.threads == s.threads;
    assert Run(s3, [Leave(t)]) == s4;
    assert Run(s2, [Post(t, reply), Leave(t)]) == Run(s3, [Leave(t)]);
    assert Run(s1, [Stamp(t), Post(t, reply), Leave(t)]) == Run(s2, [Post(t, reply), Leave(t)]);
  }
}
