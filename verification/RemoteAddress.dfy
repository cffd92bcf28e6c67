/**
 update_remote_address as a function on JSON trees: in every list of endpoints that the recursion
 reaches, the TLS endpoints whose name contains the target get a new remote address.
 */
module RemoteAddress {
  import opened Strings
  import opened JsonTree

  const ENDPOINT := Key("endpoint")
  const NAME := Key("name")
  const TLS := Key("tls")
  const TCP := Key("tcp-client-parameters")
  const ADDRESS := Key("remote-address")

  predicate Contains(s: string, part: string) {
    Find(s, part).Some?
  }

  /** The test made for an endpoint. */
  predicate Matches(e: Json, target: string) {
    && e.Dict? && NAME in e.entries && e.entries[NAME].Leaf? && Contains(e.entries[NAME].value, target)
    && TLS in e.entries && e.entries[TLS].Dict?
    && TCP in e.entries[TLS].entries && e.entries[TLS].entries[TCP].Dict?
  }

  /**
   What the recursion relies on: endpoints are dictionaries with a name, and these two parts of them are
   dictionaries.
   */
  predicate GoodEndpoint(e: Json) {
    && e.Dict? && NAME in e.entries && e.entries[NAME].Leaf?
    && (TLS in e.entries ==>
          e.entries[TLS].Dict? && (TCP in e.entries[TLS].entries ==> e.entries[TLS].entries[TCP].Dict?))
  }

  /** The value of an entry is a list of endpoints. */
  predicate IsEndpointList(s: Seg, c: Json) {
    s == ENDPOINT && c.List?
  }

  predicate Good(t: Json) {
    match t
    case Leaf(_) => true
    case List(items) => forall i :: 0 <= i < |items| ==> Good(items[i])
    case Dict(entries) =>
      forall s :: s in entries ==>
        if IsEndpointList(s, entries[s])
        then forall i :: 0 <= i < |entries[s].items| ==> GoodEndpoint(entries[s].items[i])
        else Good(entries[s])
  }

  function Readdressed(e: Json, target: string, address: string): Json {
    if Matches(e, target) then
      var tls := e.entries[TLS];
      With(e, TLS, With(tls, TCP, With(tls.entries[TCP], ADDRESS, Leaf(address))))
    else e
  }

  function EndpointList(items: seq<Json>, target: string, address: string): Json {
    List(seq(|items|, i requires 0 <= i < |items| => Readdressed(items[i], target, address)))
  }

  function UpdateRemote(t: Json, target: string, address: string): Json {
    match t
    case Leaf(_) => t
    case List(items) => List(seq(|items|, i requires 0 <= i < |items| => UpdateRemote(items[i], target, address)))
    case Dict(entries) =>
      Dict(map s | s in entries ::
        if IsEndpointList(s, entries[s]) then EndpointList(entries[s].items, target, address)
        else UpdateRemote(entries[s], target, address))
  }

  /**
   The paths of the addresses: three keys below an item of an endpoint list, outside of which the recursion goes on.
   */
  predicate IsTarget(t: Json, p: Path, target: string)
    decreases |p|
  {
    && p != [] && Child(t, p[0]).Some?
    && if t.Dict? && IsEndpointList(p[0], t.entries[p[0]]) then
         && |p| == 5 && p[1].Idx? && p[1].index < |t.entries[p[0]].items|
         && Matches(t.entries[p[0]].items[p[1].index], target) && p[2..] == [TLS, TCP, ADDRESS]
       else IsTarget(Child(t, p[0]).value, p[1..], target)
  }

  lemma KeysDiffer()
    ensures NAME != TLS && NAME != TCP && NAME != ADDRESS && TLS != TCP && TLS != ADDRESS && TCP != ADDRESS
  {
    assert "name"[0] == 'n' && "tls"[0] == 't' && "tcp-client-parameters"[0] == 't' && "remote-address"[0] == 'r';
    assert "tls"[1] == 'l' && "tcp-client-parameters"[1] == 'c';
  }

  lemma ReaddressedAgain(e: Json, target: string, a: string, b: string)
    ensures Matches(Readdressed(e, target, a), target) == Matches(e, target)
    ensures Readdressed(Readdressed(e, target, a), target, b) == Readdressed(e, target, b)
  {
    KeysDiffer();
    if Matches(e, target) {
      var tls := e.entries[TLS];
      var tcp := tls.entries[TCP];
      WithTwice(tcp, ADDRESS, Leaf(a), Leaf(b));
      WithTwice(tls, TCP, With(tcp, ADDRESS, Leaf(a)), With(tcp, ADDRESS, Leaf(b)));
      WithTwice(e, TLS, With(tls, TCP, With(tcp, ADDRESS, Leaf(a))), With(tls, TCP, With(tcp, ADDRESS, Leaf(b))));
    }
  }

  lemma EndpointListAgain(items: seq<Json>, target: string, a: string, b: string)
    ensures EndpointList(EndpointList(items, target, a).items, target, b) == EndpointList(items, target, b)
  {
    forall i | 0 <= i < |items|
      ensures Readdressed(Readdressed(items[i], target, a), target, b) == Readdressed(items[i], target, b)
    {
      ReaddressedAgain(items[i], target, a, b);
    }
  }

  /** A second address overwrites the first one completely; with the same address again nothing changes. */
  lemma {:induction false} LastAddressWins(t: Json, target: string, a: string, b: string)
    ensures UpdateRemote(UpdateRemote(t, target, a), target, b) == UpdateRemote(t, target, b)
  {
    match t
    case Leaf(_) =>
    case List(items) =>
      forall i | 0 <= i < |items|
        ensures UpdateRemote(UpdateRemote(items[i], target, a), target, b) == UpdateRemote(items[i], target, b)
      {
        LastAddressWins(items[i], target, a, b);
      }
    case Dict(entries) =>
      var once, twice := UpdateRemote(t, target, a).entries,
        UpdateRemote(UpdateRemote(t, target, a), target, b).entries;
      forall s | s in entries
        ensures twice[s] == UpdateRemote(t, target, b).entries[s]
      {
        if IsEndpointList(s, entries[s]) {
          EndpointListAgain(entries[s].items, target, a, b);
        } else {
          LastAddressWins(entries[s], target, a, b);
          assert !IsEndpointList(s, once[s]);
        }
      }
  }

  /** Every target gets the new address. */
  lemma {:induction false} TargetsGetTheAddress(t: Json, p: Path, target: string, address: string)
    requires IsTarget(t, p, target)
    ensures Get(UpdateRemote(t, target, address), p) == Some(Leaf(address))
    decreases |p|
  {
    if t.Dict? && IsEndpointList(p[0], t.entries[p[0]]) {
      var e := t.entries[p[0]].items[p[1].index];
      ReaddressedHasAddress(e, target, address);
      assert p[1..][0] == p[1] && p[1..][1..] == p[2..];
    } else {
      TargetsGetTheAddress(Child(t, p[0]).value, p[1..], target, address);
    }
  }

  lemma ReaddressedHasAddress(e: Json, target: string, address: string)
    requires Matches(e, target)
    ensures Get(Readdressed(e, target, address), [TLS, TCP, ADDRESS]) == Some(Leaf(address))
  {
    assert [TLS, TCP, ADDRESS][1..] == [TCP, ADDRESS] && [TCP, ADDRESS][1..] == [ADDRESS];
    GetOne(Readdressed(e, target, address).entries[TLS].entries[TCP], ADDRESS);
  }

  /** A path that is apart from those three keys is not touched within an endpoint. */
  lemma ReaddressedElsewhere(e: Json, q: Path, target: string, address: string)
    requires Matches(e, target) ==> Apart([TLS, TCP, ADDRESS], q)
    ensures Get(Readdressed(e, target, address), q) == Get(e, q)
  {
    if Matches(e, target) && q[0] == TLS {
      var tls := e.entries[TLS];
      ApartBelow([TLS, TCP, ADDRESS], q);
      assert [TLS, TCP, ADDRESS][1..] == [TCP, ADDRESS];
      TcpElsewhere(tls, q[1..], address);
    }
  }

  lemma TcpElsewhere(tls: Json, q: Path, address: string)
    requires tls.Dict? && TCP in tls.entries && tls.entries[TCP].Dict? && Apart([TCP, ADDRESS], q)
    ensures Get(With(tls, TCP, With(tls.entries[TCP], ADDRESS, Leaf(address))), q) == Get(tls, q)
  {
  }

  predicate TargetFree(t: Json, target: string) {
    match t
    case Leaf(_) => true
    case List(items) => forall i :: 0 <= i < |items| ==> TargetFree(items[i], target)
    case Dict(entries) =>
      forall s :: s in entries ==>
        if IsEndpointList(s, entries[s])
        then forall i :: 0 <= i < |entries[s].items| ==> !Matches(entries[s].items[i], target)
        else TargetFree(entries[s], target)
  }

  /** A tree without targets is not changed at all. */
  lemma {:induction false} TargetFreeUnchanged(t: Json, target: string, address: string)
    requires TargetFree(t, target)
    ensures UpdateRemote(t, target, address) == t
  {
    match t
    case Leaf(_) =>
    case List(items) =>
      forall i | 0 <= i < |items|
        ensures UpdateRemote(items[i], target, address) == items[i]
      {
        TargetFreeUnchanged(items[i], target, address);
      }
    case Dict(entries) =>
      forall s | s in entries
        ensures UpdateRemote(t, target, address).entries[s] == entries[s]
      {
        if !IsEndpointList(s, entries[s]) {
          TargetFreeUnchanged(entries[s], target, address);
        }
      }
  }

  lemma TargetFreeOrNot(t: Json, target: string)
    ensures !TargetFree(t, target) ==> exists p: Path :: IsTarget(t, p, target)
  {
    if !TargetFree(t, target) {
      var p := SomeTarget(t, target);
      assert IsTarget(t, p, target);
    }
  }

  /** A target below the child s is a target of the tree. */
  lemma TargetOfChild(t: Json, s: Seg, q: Path, target: string)
    requires Child(t, s).Some? && !(t.Dict? && IsEndpointList(s, t.entries[s]))
             && IsTarget(Child(t, s).value, q, target)
    ensures IsTarget(t, [s] + q, target)
  {
    assert ([s] + q)[1..] == q;
  }

  lemma TargetOfEndpoint(t: Json, s: Seg, i: nat, target: string)
    requires t.Dict? && s in t.entries && IsEndpointList(s, t.entries[s]) && i < |t.entries[s].items|
    ensures Matches(t.entries[s].items[i], target) ==> IsTarget(t, [s, Idx(i), TLS, TCP, ADDRESS], target)
  {
    assert [s, Idx(i), TLS, TCP, ADDRESS][2..] == [TLS, TCP, ADDRESS];
  }

  /** A tree that is not target-free has a target. */
  lemma {:induction false} SomeTarget(t: Json, target: string) returns (p: Path)
    requires !TargetFree(t, target)
    ensures IsTarget(t, p, target)
  {
    if t.List? {
      var i :| 0 <= i < |t.items| && !TargetFree(t.items[i], target);
      var q := SomeTarget(t.items[i], target);
      TargetOfChild(t, Idx(i), q, target);
      p := [Idx(i)] + q;
    } else {
      var s :| s in t.entries &&
               (if IsEndpointList(s, t.entries[s])
                   then exists i :: 0 <= i < |t.entries[s].items| && Matches(t.entries[s].items[i], target)
                else !TargetFree(t.entries[s], target));
      if IsEndpointList(s, t.entries[s]) {
        var i :| 0 <= i < |t.entries[s].items| && Matches(t.entries[s].items[i], target);
        TargetOfEndpoint(t, s, i, target);
        p := [s, Idx(i), TLS, TCP, ADDRESS];
      } else {
        var q := SomeTarget(t.entries[s], target);
        TargetOfChild(t, s, q, target);
        p := [s] + q;
      }
    }
  }

  /** Nothing but the targets changes: what is apart from all of them is the same before and after. */
  lemma {:induction false} OnlyTargetsChange(t: Json, q: Path, target: string, address: string)
    requires forall p :: IsTarget(t, p, target) ==> Apart(p, q)
    ensures Get(UpdateRemote(t, target, address), q) == Get(t, q)
    decreases |q|
  {
    if q == [] {
      assert forall p: Path :: !Apart(p, []);
      TargetFreeOrNot(t, target);
      TargetFreeUnchanged(t, target, address);
    } else if Child(t, q[0]).Some? {
      var c := Child(t, q[0]).value;
      if t.Dict? && IsEndpointList(q[0], c) {
        OnlyEndpointsChange(t, q, target, address);
      } else {
        forall p | IsTarget(c, p, target)
          ensures Apart(p, q[1..])
        {
          TargetOfChild(t, q[0], p, target);
          assert [q[0]] + q[1..] == q;
          assert Apart([q[0]] + p, [q[0]] + q[1..]);
        }
        OnlyTargetsChange(c, q[1..], target, address);
      }
    }
  }

  lemma NoneReaddressed(items: seq<Json>, target: string, address: string)
    requires forall i: nat :: i < |items| ==> !Matches(items[i], target)
    ensures EndpointList(items, target, address) == List(items)
  {
    assert EndpointList(items, target, address).items == items;
  }

  lemma ApartBelowTwo(first: Seg, second: Seg, p: Path, q: Path)
    requires |q| >= 2 && q[0] == first && q[1] == second && Apart([first, second] + p, q)
    ensures Apart(p, q[2..])
  {
    assert q == [first, second] + q[2..];
  }

  lemma OnlyEndpointsChange(t: Json, q: Path, target: string, address: string)
    requires q != [] && t.Dict? && q[0] in t.entries && IsEndpointList(q[0], t.entries[q[0]])
    requires forall p :: IsTarget(t, p, target) ==> Apart(p, q)
    ensures Get(UpdateRemote(t, target, address), q) == Get(t, q)
  {
    hide Readdressed;
    var items := t.entries[q[0]].items;
    var list := EndpointList(items, target, address);
    assert Child(UpdateRemote(t, target, address), q[0]) == Some(list);
    if |q| == 1 {
      forall i: nat | i < |items|
        ensures !Matches(items[i], target)
      {
        TargetOfEndpoint(t, q[0], i, target);
        assert q <= [q[0], Idx(i), TLS, TCP, ADDRESS];
      }
      NoneReaddressed(items, target, address);
    } else if q[1].Idx? && q[1].index < |items| {
      var i := q[1].index;
      if Matches(items[i], target) {
        TargetOfEndpoint(t, q[0], i, target);
        ApartBelowTwo(q[0], q[1], [TLS, TCP, ADDRESS], q);
      }
      ReaddressedElsewhere(items[i], q[2..], target, address);
      assert q[1..][1..] == q[2..];
    }
  }

  lemma ReaddressedStaysGood(e: Json, target: string, address: string)
    ensures GoodEndpoint(e) ==> GoodEndpoint(Readdressed(e, target, address))
  {
    KeysDiffer();
  }

  /** What the recursion relies on still holds afterwards, so it can be run again. */
  lemma {:induction false} StaysGood(t: Json, target: string, address: string)
    requires Good(t)
    ensures Good(UpdateRemote(t, target, address))
  {
    match t
    case Leaf(_) =>
    case List(items) =>
      forall i | 0 <= i < |items|
        ensures Good(UpdateRemote(items[i], target, address))
      {
        StaysGood(items[i], target, address);
      }
    case Dict(entries) =>
      var after := UpdateRemote(t, target, address);
      forall s | s in entries
        ensures if IsEndpointList(s, after.entries[s])
                then forall i :: 0 <= i < |after.entries[s].items| ==> GoodEndpoint(after.entries[s].items[i])
                else Good(after.entries[s])
      {
        if IsEndpointList(s, entries[s]) {
          forall i | 0 <= i < |entries[s].items|
            ensures GoodEndpoint(after.entries[s].items[i])
          {
            ReaddressedStaysGood(entries[s].items[i], target, address);
          }
        } else {
          StaysGood(entries[s], target, address);
        }
      }
  }

  /** The targets are in the same places before and after: the shape around them is kept. */
  lemma {:induction false} TargetsStay(t: Json, p: Path, target: string, address: string)
    ensures IsTarget(UpdateRemote(t, target, address), p, target) <==> IsTarget(t, p, target)
    decreases |p|
  {
    if p != [] && Child(t, p[0]).Some? {
      var c := Child(t, p[0]).value;
      if t.Dict? && IsEndpointList(p[0], c) {
        if |p| == 5 && p[1].Idx? && p[1].index < |c.items| {
          ReaddressedAgain(c.items[p[1].index], target, address, address);
        }
      } else {
        TargetsStay(c, p[1..], target, address);
      }
    }
  }
}
