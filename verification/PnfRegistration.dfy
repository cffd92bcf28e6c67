/** The registration of every listening endpoint at the VES collector, retried until each has been accepted once. */
module PnfRegistration {
  import opened Strings
  import V = Ves

  // ---------- get_listen_connections ----------

  datatype User = User(name: Option<string>, password: Option<string>)

  /** An entry of the datastore's endpoint list; a leaf whose path is missing is None. */
  datatype Endpoint =
    | Tls(name: Option<string>, port: Option<int>)
    | Ssh(name: Option<string>, port: Option<int>, users: Option<seq<User>>)
    | Other

  datatype Connection =
    | TlsConnection(name: string, port: int)
    | SshConnection(name: string, port: int, user: string, password: string)

  /** The two local variables of the loop, which keep their values from one endpoint to the next. */
  datatype Credentials = Credentials(user: Option<string>, password: Option<string>)

  /** The password without its "$0$" prefix: the slice from position three on. */
  function Pruned(password: string): string {
    if |password| < 3 then "" else password[3..]
  }

  /** A password that is marked as plain text loses the mark and nothing else. */
  lemma MarkIsDropped(password: string)
    ensures Pruned("$0$" + password) == password
  {
    assert ("$0$" + password)[3..] == password;
  }

  /** The credentials after one user entry, and whether it was complete. */
  function WithUser(c: Credentials, u: User): (bool, Credentials) {
    if u.name.None? then (false, c)
    else if u.password.None? then (false, c.(user := u.name))
    else (true, Credentials(u.name, Some(Pruned(u.password.value))))
  }

  function WithUsers(c: Credentials, users: seq<User>): (bool, Credentials)
    decreases |users|
  {
    if users == [] then (true, c)
    else
      var (ok, next) := WithUser(c, users[0]);
      if ok then WithUsers(next, users[1..]) else (false, next)
  }

  datatype Found = Listed(connection: Connection) | Skipped | Unbound

  function Visit(e: Endpoint, c: Credentials): (Found, Credentials) {
    match e
    case Other => (Skipped, c)
    case Tls(name, port) =>
      (if name.Some? && port.Some? then Listed(TlsConnection(name.value, port.value)) else Skipped, c)
    case Ssh(name, port, users) =>
      if name.None? || port.None? || users.None? then (Skipped, c)
      else
        var (ok, next) := WithUsers(c, users.value);
        (if !ok then Skipped
         else if next.user.None? || next.password.None? then Unbound
         else Listed(SshConnection(name.value, port.value, next.user.value, next.password.value)), next)
  }

  /** The connections listed, and false when an unbound variable ended the loop. */
  function Collected(es: seq<Endpoint>, c: Credentials): (bool, seq<Connection>) {
    if es == [] then (true, [])
    else
      var (found, next) := Visit(es[0], c);
      match found
      case Unbound => (false, [])
      case Skipped => Collected(es[1..], next)
      case Listed(connection) => var (ok, rest) := Collected(es[1..], next); (ok, [connection] + rest)
  }

  /** The connection an endpoint's own entry describes, with the credentials of its last user. */
  function Own(e: Endpoint): seq<Connection> {
    match e
    case Tls(Some(name), Some(port)) => [TlsConnection(name, port)]
    case Ssh(Some(name), Some(port), Some(users)) =>
      if users != [] && forall u :: u in users ==> u.name.Some? && u.password.Some?
      then [SshConnection(name, port, users[|users|-1].name.value, Pruned(users[|users|-1].password.value))]
      else []
    case _ => []
  }

  function OwnOf(es: seq<Endpoint>): seq<Connection> {
    if es == [] then [] else Own(es[0]) + OwnOf(es[1..])
  }

  /** An SSH endpoint that is complete but for a list of users that is there and empty. */
  predicate HasNoUser(e: Endpoint) {
    e.Ssh? && e.name.Some? && e.port.Some? && e.users == Some([])
  }

  lemma {:induction false} UsersAreTheLast(c: Credentials, users: seq<User>)
    requires users != []
    ensures WithUsers(c, users).0 <==> forall u :: u in users ==> u.name.Some? && u.password.Some?
    ensures WithUsers(c, users).0 ==>
              WithUsers(c, users).1 == Credentials(users[|users|-1].name, Some(Pruned(users[|users|-1].password.value)))
    decreases |users|
  {
    var (ok, next) := WithUser(c, users[0]);
    assert users == [users[0]] + users[1..];
    if ok && |users| > 1 {
      UsersAreTheLast(next, users[1..]);
      assert forall u :: u in users ==> u == users[0] || u in users[1..];
      assert forall u :: u in users[1..] ==> u in users;
    }
  }

  lemma VisitIsOwn(e: Endpoint, c: Credentials)
    requires !HasNoUser(e)
    ensures match Visit(e, c).0 {
              case Unbound => false
              case Skipped => Own(e) == []
              case Listed(connection) => Own(e) == [connection]
            }
  {
    if e.Ssh? && e.users.Some? && e.users.value != [] {
      UsersAreTheLast(c, e.users.value);
    }
  }

  lemma {:induction false} NothingIsMissed(es: seq<Endpoint>, c: Credentials)
    ensures Collected(es, c).0 ==> |Collected(es, c).1| >= |OwnOf(es)|
    ensures Collected(es, c).0 && (exists e :: e in es && HasNoUser(e)) ==> |Collected(es, c).1| > |OwnOf(es)|
  {
    if es != [] {
      assert forall e :: e in es ==> e == es[0] || e in es[1..];
      NothingIsMissed(es[1..], Visit(es[0], c).1);
      if !HasNoUser(es[0]) {
        VisitIsOwn(es[0], c);
      } else {
        assert WithUsers(c, []) == (true, c);
      }
    }
  }

  lemma {:induction false} CollectedAreOwn(es: seq<Endpoint>, c: Credentials)
    requires !exists e :: e in es && HasNoUser(e)
    ensures Collected(es, c) == (true, OwnOf(es))
  {
    if es != [] {
      assert !HasNoUser(es[0]) && forall e :: e in es[1..] ==> e in es;
      VisitIsOwn(es[0], c);
      var (found, next) := Visit(es[0], c);
      CollectedAreOwn(es[1..], next);
      assert found.Skipped? ==> Own(es[0]) + OwnOf(es[1..]) == OwnOf(es[1..]);
    }
  }

  /**
   Each endpoint is listed with its own data, and nothing goes wrong, exactly when no endpoint has an
   empty list of users: such a one takes the credentials left over from the endpoint before, or fails.
   */
  lemma ListedWithOwnCredentialsIff(es: seq<Endpoint>)
    ensures Collected(es, Credentials(None, None)) == (true, OwnOf(es)) <==> !exists e :: e in es && HasNoUser(e)
  {
    if exists e :: e in es && HasNoUser(e) {
      NothingIsMissed(es, Credentials(None, None));
    } else {
      CollectedAreOwn(es, Credentials(None, None));
    }
  }

  // ---------- the retry loop ----------

  datatype Send = Send(endpoint: nat, reply: V.Reply)

  datatype Exit = Finished | SleepRaised | StillTrying

  function RepliesTo(log: seq<Send>, i: nat): seq<V.Reply> {
    if log == [] then []
    else RepliesTo(log[..|log|-1], i) + (if log[|log|-1].endpoint == i then [log[|log|-1].reply] else [])
  }

  predicate EndsInSuccess(replies: seq<V.Reply>) {
    replies != [] && V.Success(replies[|replies|-1])
  }

  /** The replies endpoint i gets in the first passes when it is retried until one succeeds. */
  function Attempts(replies: (nat, nat) -> V.Reply, i: nat, passes: nat): seq<V.Reply> {
    if passes == 0 then []
    else
      var before := Attempts(replies, i, passes - 1);
      if EndsInSuccess(before) then before else before + [replies(passes - 1, i)]
  }

  lemma {:induction false} OnlyTheLastSucceeds(replies: (nat, nat) -> V.Reply, i: nat, passes: nat)
    ensures var tries := Attempts(replies, i, passes);
            && |tries| <= passes
            && (forall k :: 0 <= k < |tries| ==> tries[k] == replies(k, i))
            && (forall k :: 0 <= k < |tries| - 1 ==> !V.Success(tries[k]))
            && (!EndsInSuccess(tries) ==> |tries| == passes)
  {
    if passes > 0 {
      OnlyTheLastSucceeds(replies, i, passes - 1);
    }
  }

  /** An endpoint has been accepted after some passes exactly when one of them brought it a success. */
  lemma AcceptedIffSomePassSucceeds(replies: (nat, nat) -> V.Reply, i: nat, passes: nat)
    ensures EndsInSuccess(Attempts(replies, i, passes)) <==> exists p :: 0 <= p < passes && V.Success(replies(p, i))
  {
  }

  function Trues(flags: seq<bool>): nat {
    if flags == [] then 0 else Trues(flags[..|flags|-1]) + (if flags[|flags|-1] then 1 else 0)
  }

  lemma {:induction false} SetTrue(flags: seq<bool>, i: nat)
    requires i < |flags| && !flags[i]
    ensures Trues(flags[i := true]) == Trues(flags) + 1
  {
    var n := |flags| - 1;
    if i < n {
      assert flags[i := true][..n] == flags[..n][i := true];
      SetTrue(flags[..n], i);
    } else {
      assert flags[i := true][..n] == flags[..n];
    }
  }

  lemma {:induction false} AllTrue(flags: seq<bool>)
    requires forall i :: 0 <= i < |flags| ==> flags[i]
    ensures Trues(flags) == |flags|
  {
    if flags != [] {
      AllTrue(flags[..|flags|-1]);
    }
  }

  lemma {:induction false} NoneTrue(flags: seq<bool>)
    requires forall i :: 0 <= i < |flags| ==> !flags[i]
    ensures Trues(flags) == 0
  {
    if flags != [] {
      NoneTrue(flags[..|flags|-1]);
    }
  }

  /** The flag of endpoint i says whether it was accepted in the first passes, which the log shows. */
  ghost predicate Tracked(log: seq<Send>, replies: (nat, nat) -> V.Reply, i: nat, passes: nat, accepted: bool) {
    RepliesTo(log, i) == Attempts(replies, i, passes) && accepted == EndsInSuccess(Attempts(replies, i, passes))
  }

  ghost predicate AllTracked(log: seq<Send>, replies: (nat, nat) -> V.Reply, success: seq<bool>, passes: nat,
                             done: nat) {
    forall i: nat :: i < |success| ==> Tracked(log, replies, i, if i < done then passes + 1 else passes, success[i])
  }

  lemma TriedAgain(log: seq<Send>, replies: (nat, nat) -> V.Reply, success: seq<bool>, passes: nat, i: nat)
    requires i < |success| && !success[i] && AllTracked(log, replies, success, passes, i)
    ensures AllTracked(log + [Send(i, replies(passes, i))], replies,
                       success[i := V.Success(replies(passes, i))], passes, i + 1)
  {
  }

  lemma LeftAlone(log: seq<Send>, replies: (nat, nat) -> V.Reply, success: seq<bool>, passes: nat, i: nat)
    requires i < |success| && success[i] && AllTracked(log, replies, success, passes, i)
    ensures AllTracked(log, replies, success, passes, i + 1)
  {
    assert Tracked(log, replies, i, passes, true);
  }

  lemma TrackedSoFar(log: seq<Send>, replies: (nat, nat) -> V.Reply, success: seq<bool>, passes: nat)
    requires AllTracked(log, replies, success, passes, 0)
    ensures forall i: nat :: i < |success| ==> RepliesTo(log, i) == Attempts(replies, i, passes)
    ensures AllSet(success) <==> AllAccepted(replies, |success|, passes)
  {
    forall i: nat | i < |success|
      ensures RepliesTo(log, i) == Attempts(replies, i, passes)
              && success[i] == EndsInSuccess(Attempts(replies, i, passes))
    {
      assert Tracked(log, replies, i, passes, success[i]);
    }
    if AllSet(success) {
      forall i: nat | i < |success|
        ensures EndsInSuccess(Attempts(replies, i, passes))
      {
        assert success[i];
      }
    } else {
      var i: nat :| i < |success| && !success[i];
      assert !EndsInSuccess(Attempts(replies, i, passes));
    }
  }

  /** After these passes every endpoint has been accepted. */
  ghost predicate AllAccepted(replies: (nat, nat) -> V.Reply, n: nat, passes: nat) {
    forall i: nat :: i < n ==> EndsInSuccess(Attempts(replies, i, passes))
  }

  lemma {:induction false} AcceptedForGood(replies: (nat, nat) -> V.Reply, n: nat, pass: nat, passes: nat)
    requires pass <= passes && AllAccepted(replies, n, pass)
    ensures AllAccepted(replies, n, passes)
  {
    if pass < passes {
      AcceptedForGood(replies, n, pass, passes - 1);
    }
  }

  /** Something was left to do after each of the passes before this one, and the sleeps that followed them were well. */
  ghost predicate Outstanding(replies: (nat, nat) -> V.Reply, n: nat, sleepRaises: nat -> bool, pass: nat) {
    forall q :: 0 <= q < pass ==> !AllAccepted(replies, n, q) && (0 < q ==> !sleepRaises(q))
  }

  /** The messages of one pass to the first k endpoints: one to each that has not been accepted before. */
  function SendsOf(replies: (nat, nat) -> V.Reply, pass: nat, k: nat): seq<Send> {
    if k == 0 then []
    else SendsOf(replies, pass, k - 1) +
         (if EndsInSuccess(Attempts(replies, k - 1, pass)) then [] else [Send(k - 1, replies(pass, k - 1))])
  }

  function Sends(replies: (nat, nat) -> V.Reply, n: nat, passes: nat): seq<Send> {
    if passes == 0 then [] else Sends(replies, n, passes - 1) + SendsOf(replies, passes - 1, n)
  }

  lemma NothingOutstandingYet(replies: (nat, nat) -> V.Reply, success: seq<bool>, sleepRaises: nat -> bool)
    requires forall i: nat :: i < |success| ==> !success[i]
    ensures Outstanding(replies, |success|, sleepRaises, 0) && Sends(replies, |success|, 0) == []
    ensures AllTracked([], replies, success, 0, 0)
  {
  }

  lemma StillOutstanding(replies: (nat, nat) -> V.Reply, n: nat, sleepRaises: nat -> bool, pass: nat)
    requires Outstanding(replies, n, sleepRaises, pass) && !AllAccepted(replies, n, pass)
    requires 0 < pass ==> !sleepRaises(pass)
    ensures Outstanding(replies, n, sleepRaises, pass + 1)
    ensures Sends(replies, n, pass + 1) == Sends(replies, n, pass) + SendsOf(replies, pass, n)
  {
  }

  /** Before endpoint i has its turn in a pass, its flag says whether it was accepted in the passes before. */
  lemma FlagsAreTracked(log: seq<Send>, replies: (nat, nat) -> V.Reply, success: seq<bool>, pass: nat, i: nat)
    requires i < |success| && AllTracked(log, replies, success, pass, i)
    ensures SendsOf(replies, pass, i + 1)
            == SendsOf(replies, pass, i) + (if success[i] then [] else [Send(i, replies(pass, i))])
  {
    assert Tracked(log, replies, i, pass, success[i]);
  }

  lemma NothingSentYet(replies: (nat, nat) -> V.Reply, pass: nat)
    ensures SendsOf(replies, pass, 0) == []
  {
  }

  lemma PassTracked(log: seq<Send>, replies: (nat, nat) -> V.Reply, success: seq<bool>, pass: nat)
    requires AllTracked(log, replies, success, pass, |success|)
    ensures AllTracked(log, replies, success, pass + 1, 0)
  {
  }

  predicate AllSet(flags: seq<bool>) {
    forall i: nat :: i < |flags| ==> flags[i]
  }

  class Registration {
    var listenEndpoints: seq<Connection>

    constructor ()
      ensures listenEndpoints == []
    {
      listenEndpoints := [];
    }

    method GetListenConnections(endpoints: seq<Endpoint>) returns (ok: bool)
      modifies this
      ensures var (complete, found) := Collected(endpoints, Credentials(None, None));
              ok == complete && listenEndpoints == old(listenEndpoints) + found
    {
      var credentials := Credentials(None, None);
      var i := 0;
      while i < |endpoints|
        invariant 0 <= i <= |endpoints|
        invariant listenEndpoints + Collected(endpoints[i..], credentials).1
               == old(listenEndpoints) + Collected(endpoints, Credentials(None, None)).1
        invariant Collected(endpoints[i..], credentials).0 == Collected(endpoints, Credentials(None, None)).0
      {
        var found;
        found, credentials := VisitEndpoint(endpoints[i], credentials);
        match found {
          case Unbound => return false;
          case Skipped =>
          case Listed(connection) => listenEndpoints := listenEndpoints + [connection];
        }
        i := i + 1;
      }
      ok := true;
    }

    method VisitEndpoint(e: Endpoint, before: Credentials) returns (found: Found, after: Credentials)
      ensures (found, after) == Visit(e, before)
    {
      after := before;
      match e {
        case Other => return Skipped, after;
        case Tls(name, port) =>
          if name.None? || port.None? {
            return Skipped, after;
          }
          return Listed(TlsConnection(name.value, port.value)), after;
        case Ssh(name, port, users) =>
          if name.None? || port.None? || users.None? {
            return Skipped, after;
          }
          var k := 0;
          while k < |users.value|
            invariant 0 <= k <= |users.value|
            invariant WithUsers(after, users.value[k..]) == WithUsers(before, users.value)
          {
            var u := users.value[k];
            if u.name.None? {
              return Skipped, after;
            }
            after := after.(user := u.name);
            if u.password.None? {
              return Skipped, after;
            }
            after := after.(password := Some(Pruned(u.password.value)));
            k := k + 1;
          }
          if after.user.None? || after.password.None? {
            return Unbound, after;
          }
          return Listed(SshConnection(name.value, port.value, after.user.value, after.password.value)), after;
      }
    }

    /**
     send_pnf_registrations_in_background, observed for a number of passes; replies(p, i) is the answer
     to endpoint i in pass p. Every endpoint is tried until its first success, and never after it, in the order of
     the list. The loop goes on while one has not been accepted and no sleep raises, and ends after the first pass by
     which all have been.
     */
    method SendInBackground(ves: V.Ves, replies: (nat, nat) -> V.Reply, sleepRaises: nat -> bool, passes: nat)
      returns (exit: Exit, pass: nat, ghost log: seq<Send>)
      modifies ves
      ensures pass <= passes && Outstanding(replies, |listenEndpoints|, sleepRaises, pass)
      ensures log == Sends(replies, |listenEndpoints|, pass)
      ensures forall i: nat :: i < |listenEndpoints| ==> RepliesTo(log, i) == Attempts(replies, i, pass)
      ensures exit.Finished? <==> AllAccepted(replies, |listenEndpoints|, pass)
      ensures exit.SleepRaised? <==>
                !AllAccepted(replies, |listenEndpoints|, pass) && 0 < pass && sleepRaises(pass)
      ensures exit.Finished? ==> ves.seqId == old(ves.seqId) + |listenEndpoints|
      ensures exit.StillTrying? ==> pass == passes
      ensures (forall q :: !sleepRaises(q)) ==> (exit.Finished? <==> AllAccepted(replies, |listenEndpoints|, passes))
    {
      hide AllTracked, AllAccepted, Outstanding, Sends, SendsOf, Trues, RepliesTo, Attempts;
      var success := seq(|listenEndpoints|, i => false);
      NoneTrue(success);
      NothingOutstandingYet(replies, success, sleepRaises);
      pass, log := 0, [];
      while !AllSet(success)
        invariant pass <= passes && |success| == |listenEndpoints| && log == Sends(replies, |success|, pass)
        invariant Outstanding(replies, |success|, sleepRaises, pass)
        invariant 0 < pass && sleepRaises(pass) ==> AllSet(success)
        invariant AllTracked(log, replies, success, pass, 0)
        invariant ves.seqId == old(ves.seqId) + Trues(success)
        decreases passes - pass
      {
        TrackedSoFar(log, replies, success, pass);
        if pass == passes {
          return StillTrying, pass, log;
        }
        StillOutstanding(replies, |success|, sleepRaises, pass);
        success, log := OnePass(ves, replies, pass, success, log);
        pass := pass + 1;
        if !AllSet(success) {
          if sleepRaises(pass) {
            TrackedSoFar(log, replies, success, pass);
            return SleepRaised, pass, log;
          }
        }
      }
      TrackedSoFar(log, replies, success, pass);
      AllTrue(success);
      AcceptedForGood(replies, |success|, pass, passes);
      exit := Finished;
    }

    /** The body of the retry loop: one attempt for each endpoint that has not been accepted yet. */
    static method OnePass(ves: V.Ves, replies: (nat, nat) -> V.Reply, pass: nat, before: seq<bool>,
                          ghost sent: seq<Send>)
      returns (success: seq<bool>, ghost log: seq<Send>)
      requires AllTracked(sent, replies, before, pass, 0)
      modifies ves
      ensures |success| == |before| && AllTracked(log, replies, success, pass + 1, 0)
      ensures log == sent + SendsOf(replies, pass, |before|)
      ensures ves.seqId - Trues(success) == old(ves.seqId) - Trues(before)
    {
      hide AllTracked, SendsOf, Trues;
      NothingSentYet(replies, pass);
      success, log := before, sent;
      for i := 0 to |before|
        invariant |success| == |before|
        invariant AllTracked(log, replies, success, pass, i) && log == sent + SendsOf(replies, pass, i)
        invariant ves.seqId - Trues(success) == old(ves.seqId) - Trues(before)
      {
        FlagsAreTracked(log, replies, success, pass, i);
        if !success[i] {
          var result, raised, m := ves.Execute(V.Plain, replies(pass, i));
          TriedAgain(log, replies, success, pass, i);
          log := log + [Send(i, replies(pass, i))];
          if result {
            SetTrue(success, i);
            success := success[i := true];
          } else {
            assert success[i := false] == success;
          }
        } else {
          LeftAlone(log, replies, success, pass, i);
        }
      }
      PassTracked(log, replies, success, pass);
    }
  }

  /** Whenever the loop ends, every endpoint has been accepted exactly once, by its last attempt. */
  lemma AcceptedExactlyOnce(replies: (nat, nat) -> V.Reply, i: nat, passes: nat)
    requires EndsInSuccess(Attempts(replies, i, passes))
    ensures var tries := Attempts(replies, i, passes);
            forall k :: 0 <= k < |tries| ==> (V.Success(tries[k]) <==> k == |tries| - 1)
  {
    OnlyTheLastSucceeds(replies, i, passes);
  }
}
