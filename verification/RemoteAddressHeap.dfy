/** update_remote_address as the program runs it: a recursion over cells that assigns the addresses in place. */
module RemoteAddressHeap {
  import opened Strings
  import opened JsonTree
  import opened JsonHeap
  import opened RemoteAddress

  lemma KidRooted(l: Layout, data: Cell, s: Seg)
    requires Rooted(l, data) && Sub(l, s).Some?
    ensures var k := Sub(l, s).value;
            && Rooted(k, k.cell) && Cells(k) <= Cells(l) && data in Cells(l) && data !in Cells(k)
               && data.node == NodeOf(l)
            && Child(Value(l), s) == Some(Value(k)) && k.cell.node == NodeOf(k)
  {
    var k := Sub(l, s).value;
    SubHolds(l, s, Contents(Cells(l)));
    SubCells(l, s);
    BelowCells(l, []);
    BelowCells(k, []);
    assert data.node == Contents(Cells(l))[data] && k.cell.node == Contents(Cells(l))[k.cell];
    StillHolds(k, Contents(Cells(l)), Contents(Cells(k)));
  }

  /** After a change within one kid, the cells hold the layout with that kid changed. */
  lemma KidSettled(l: Layout, data: Cell, s: Seg, k: Layout, before: Memory)
    requires Distinct(l) && Holds(l, before) && l.cell == data && Sub(l, s).Some?
    requires Rooted(k, Sub(l, s).value.cell) && Cells(k) - Cells(Sub(l, s).value) !! Cells(l)
    requires forall c :: c in Cells(l) - Cells(Sub(l, s).value) && c in before ==> before[c] == c.node
    ensures var l' := ReplaceKid(l, s, k);
            && Rooted(l', data) && Cells(l') <= Cells(l) + Cells(k)
            && (Child(Value(l), s).Some? || Value(l).Dict?) && Value(l') == With(Value(l), s, Value(k))
  {
    var kid := Sub(l, s).value;
    var extra := Cells(k) - Cells(kid);
    var all := Cells(l) + extra;
    assert Below(l, [s]) == Some(kid) && [s][1..] == [];
    SubCells(l, s);
    StillHolds(k, Contents(Cells(k)), Contents(all));
    PlaceSettled(l, data, [s], k, extra, all, before);
    assert ReplaceAt(l, [s], k) == ReplaceKid(l, s, k);
  }

  lemma EndpointParts(l: Layout, e: Cell)
    requires Rooted(l, e) && GoodEndpoint(Value(l))
    ensures l.DictAt? && e.node == NodeOf(l) && NAME in l.kids && l.kids[NAME].LeafAt?
            && l.kids[NAME].cell.node == NodeOf(l.kids[NAME])
    ensures TLS in l.kids ==> l.kids[TLS].DictAt? && l.kids[TLS].cell.node == NodeOf(l.kids[TLS])
    ensures TLS in l.kids && TCP in l.kids[TLS].kids ==>
              var tcp := l.kids[TLS].kids[TCP];
              && tcp.DictAt? && Rooted(tcp, tcp.cell) && tcp.cell.node == NodeOf(tcp)
                 && Cells(tcp) <= Cells(l.kids[TLS]) <= Cells(l)
  {
    KidRooted(l, e, NAME);
    if TLS in l.kids {
      KidRooted(l, e, TLS);
      if TCP in l.kids[TLS].kids {
        KidRooted(l.kids[TLS], l.kids[TLS].cell, TCP);
      }
    }
  }

  /** One endpoint of a list. */
  method Readdress(e: Cell, target: string, address: string, ghost l: Layout) returns (ghost after: Layout)
    requires Rooted(l, e) && GoodEndpoint(Value(l))
    modifies Cells(l)
    ensures Rooted(after, e) && fresh(Cells(after) - Cells(l)) && Value(after) == Readdressed(Value(l), target, address)
  {
    after := l;
    EndpointParts(l, e);
    var entries := e.node.entries;
    if Contains(entries[NAME].node.value, target) && TLS in entries {
      var tls := entries[TLS].node.entries;
      if TCP in tls {
        after := SetAddress(tls[TCP], address, l, e);
      }
    }
  }

  /** A string under a key of a dictionary. */
  method SetText(dict: Cell, key: Seg, text: string, ghost k: Layout) returns (ghost after: Layout)
    requires Rooted(k, dict) && k.DictAt?
    modifies dict
    ensures Rooted(after, dict) && fresh(Cells(after) - Cells(k)) && Value(after) == With(Value(k), key, Leaf(text))
  {
    ghost var m := Contents(Cells(k));
    var leaf := new Cell(LeafNode(text));
    ghost var v := LeafAt(leaf, text);
    ghost var all := Cells(k) + {leaf};
    ghost var before := Contents(all);
    StillHolds(k, m, before);
    BelowCells(k, []);
    assert dict.node == before[dict];
    AssignFits(k, key, v, before);
    NodesOfChanged(k, key, v);
    after := Assigned(k, key, v);
    SetNode(dict, DictNode(dict.node.entries[key := leaf]), all);
    StillHolds(after, Contents(all), Contents(Cells(after)));
  }

  lemma TextSettled(l: Layout, e: Cell, k: Layout, before: Memory)
    requires Distinct(l) && Holds(l, before) && l.cell == e
    requires l.DictAt? && TLS in l.kids && l.kids[TLS].DictAt? && TCP in l.kids[TLS].kids
    requires var tcp := l.kids[TLS].kids[TCP];
             && Rooted(k, tcp.cell) && Cells(k) - Cells(tcp) !! Cells(l)
             && forall c :: c in Cells(l) - Cells(tcp) && c in before ==> before[c] == c.node
    ensures var l' := ReplaceKid(l, TLS, ReplaceKid(l.kids[TLS], TCP, k));
            && Rooted(l', e) && Cells(l') <= Cells(l) + Cells(k)
            && Value(l') == With(Value(l), TLS, With(Value(l.kids[TLS]), TCP, Value(k)))
  {
    var tls := l.kids[TLS];
    SubHolds(l, TLS, before);
    SubHolds(tls, TCP, before);
    KidSettled(tls, tls.cell, TCP, k, before);
    KidSettled(l, e, TLS, ReplaceKid(tls, TCP, k), before);
  }

  method SetAddress(tcp: Cell, address: string, ghost l: Layout, ghost e: Cell) returns (ghost after: Layout)
    requires Rooted(l, e) && l.DictAt? && TLS in l.kids && l.kids[TLS].DictAt? && TCP in l.kids[TLS].kids
    requires var k := l.kids[TLS].kids[TCP]; k.DictAt? && Rooted(k, tcp) && Cells(k) <= Cells(l)
    modifies Cells(l)
    ensures Rooted(after, e) && fresh(Cells(after) - Cells(l))
    ensures Value(after)
            == With(Value(l), TLS,
                With(Value(l.kids[TLS]), TCP, With(Value(l.kids[TLS].kids[TCP]), ADDRESS, Leaf(address))))
  {
    ghost var before := Contents(Cells(l));
    BelowCells(l.kids[TLS].kids[TCP], []);
    ghost var k := SetText(tcp, ADDRESS, address, l.kids[TLS].kids[TCP]);
    TextSettled(l, e, k, before);
    after := ReplaceKid(l, TLS, ReplaceKid(l.kids[TLS], TCP, k));
  }

  lemma KidChanged(now: Layout, config: Cell, s: Seg, kid: Layout, k: Layout, before: Memory)
    requires Distinct(now) && Holds(now, before) && now.cell == config && Sub(now, s) == Some(kid)
    requires Rooted(k, kid.cell) && Cells(k) - Cells(kid) !! Cells(now)
    requires forall c :: c in Cells(now) - Cells(kid) && c in before ==> before[c] == c.node
    ensures Rooted(ReplaceKid(now, s, k), config) && Cells(ReplaceKid(now, s, k)) <= Cells(now) + Cells(k)
  {
    KidSettled(now, config, s, k, before);
  }

  /** The first i endpoints have been visited, the others are as they were. */
  ghost predicate ReaddressedUpTo(now: Layout, l: Layout, i: nat, target: string, address: string) {
    && now.ListAt? && l.ListAt? && |now.nodes| == |l.nodes|
    && (forall j :: 0 <= j < |l.nodes| && j < i ==>
         Value(now.nodes[j]) == Readdressed(Value(l.nodes[j]), target, address))
    && (forall j :: i <= j < |l.nodes| ==> now.nodes[j] == l.nodes[j])
  }

  /** Where the loop over a list of endpoints stands; the cells made so far are extra. */
  ghost predicate EndpointLoop(now: Layout, l: Layout, list: Cell, i: nat, target: string, address: string,
                               extra: set<Cell>)
    reads Cells(now)
  {
    Rooted(now, list) && Cells(now) <= Cells(l) + extra && ReaddressedUpTo(now, l, i, target, address)
  }

  lemma EndpointLoopStarts(l: Layout, list: Cell, items: seq<Cell>, target: string, address: string)
    requires Rooted(l, list) && l.ListAt? && NodeOf(l) == ListNode(items)
    ensures EndpointLoop(l, l, list, 0, target, address, {})
    ensures |items| == |l.nodes| && forall i :: 0 <= i < |items| ==> l.nodes[i].cell == items[i]
  {
  }

  lemma EndpointLoopEnds(now: Layout, l: Layout, list: Cell, target: string, address: string, extra: set<Cell>)
    requires l.ListAt? && EndpointLoop(now, l, list, |l.nodes|, target, address, extra)
    ensures Rooted(now, list) && Cells(now) <= Cells(l) + extra
            && Value(now) == EndpointList(Value(l).items, target, address)
  {
    assert Value(now).items == EndpointList(Value(l).items, target, address).items;
  }

  lemma EndpointReady(now: Layout, l: Layout, list: Cell, i: nat, target: string, address: string, extra: set<Cell>)
    requires l.ListAt? && EndpointLoop(now, l, list, i, target, address, extra) && i < |l.nodes|
    ensures var kid := l.nodes[i];
            && Distinct(now) && Holds(now, Contents(Cells(now))) && now.cell == list && Sub(now, Idx(i)) == Some(kid)
            && Rooted(kid, kid.cell) && Cells(kid) <= Cells(now) <= Cells(l) + extra
               && ReaddressedUpTo(now, l, i, target, address)
  {
    KidRooted(now, list, Idx(i));
  }

  lemma EndpointVisited(now: Layout, l: Layout, i: nat, k: Layout, target: string, address: string)
    requires ReaddressedUpTo(now, l, i, target, address) && i < |l.nodes|
             && Value(k) == Readdressed(Value(l.nodes[i]), target, address)
    ensures ReaddressedUpTo(ReplaceKid(now, Idx(i), k), l, i + 1, target, address)
  {
  }

  lemma EndpointDone(now: Layout, after: Layout, l: Layout, list: Cell, i: nat, k: Layout, target: string,
                     address: string, more: set<Cell>)
    requires ReaddressedUpTo(now, l, i, target, address) && i < |l.nodes|
             && Value(k) == Readdressed(Value(l.nodes[i]), target, address)
    requires after == ReplaceKid(now, Idx(i), k) && Rooted(after, list) && Cells(after) <= Cells(l) + more
    ensures EndpointLoop(after, l, list, i + 1, target, address, more)
  {
    EndpointVisited(now, l, i, k, target, address);
  }

  lemma ListNodeOf(l: Layout, list: Cell)
    requires Rooted(l, list) && l.ListAt?
    ensures list in Cells(l) && list.node == NodeOf(l) && NodeOf(l).ListNode?
  {
    BelowCells(l, []);
    assert list.node == Contents(Cells(l))[list];
  }

  /** The endpoints of one list, one after the other. */
  method ReaddressAll(list: Cell, target: string, address: string, ghost l: Layout) returns (ghost after: Layout)
    requires Rooted(l, list) && l.ListAt? && forall i :: 0 <= i < |l.nodes| ==> GoodEndpoint(Value(l.nodes[i]))
    modifies Cells(l)
    ensures Rooted(after, list) && fresh(Cells(after) - Cells(l))
            && Value(after) == EndpointList(Value(l).items, target, address)
  {
    hide *;
    after := l;
    ListNodeOf(l, list);
    var items := list.node.items;
    ghost var extra: set<Cell> := {};
    EndpointLoopStarts(l, list, items, target, address);
    for i := 0 to |items|
      invariant EndpointLoop(after, l, list, i, target, address, extra) && fresh(extra)
    {
      after, extra := ReaddressItem(items[i], i, target, address, list, l, after, extra);
    }
    EndpointLoopEnds(after, l, list, target, address, extra);
  }

  method ReaddressItem(e: Cell, i: nat, target: string, address: string, ghost list: Cell, ghost l: Layout,
                       ghost now: Layout, ghost extra: set<Cell>)
    returns (ghost after: Layout, ghost more: set<Cell>)
    requires l.ListAt? && i < |l.nodes| && l.nodes[i].cell == e && GoodEndpoint(Value(l.nodes[i]))
    requires EndpointLoop(now, l, list, i, target, address, extra)
    modifies Cells(l), extra
    ensures EndpointLoop(after, l, list, i + 1, target, address, more) && extra <= more && fresh(more - extra)
  {
    hide *;
    ghost var kid, before := l.nodes[i], Contents(Cells(now));
    ContentsAre(Cells(now));
    EndpointReady(now, l, list, i, target, address, extra);
    ghost var k := Readdress(e, target, address, kid);
    more := extra + (Cells(k) - Cells(kid));
    KidChanged(now, list, Idx(i), kid, k, before);
    after := ReplaceKid(now, Idx(i), k);
    EndpointDone(now, after, l, list, i, k, target, address, more);
  }

  lemma ContentsAre(cells: set<Cell>)
    ensures forall c :: c in Contents(cells) <==> c in cells
    ensures forall c :: c in cells ==> Contents(cells)[c] == c.node
  {
  }

  /** What one entry becomes: an endpoint list is rewritten, anything else is visited. */
  function EntryUpdated(s: Seg, c: Json, target: string, address: string): Json {
    if IsEndpointList(s, c) then EndpointList(c.items, target, address) else UpdateRemote(c, target, address)
  }

  /** The entries of a dictionary but for those still to be visited are rewritten. */
  ghost predicate VisitedBut(now: Layout, l: Layout, rest: set<Seg>, target: string, address: string) {
    && now.DictAt? && l.DictAt? && now.cell == l.cell && now.kids.Keys == l.kids.Keys && rest <= l.kids.Keys
    && (forall s :: s in rest ==> now.kids[s] == l.kids[s])
    && (forall s :: s in l.kids && s !in rest ==>
         Value(now.kids[s]) == EntryUpdated(s, Value(l.kids[s]), target, address))
  }

  ghost predicate VisitedUpTo(now: Layout, l: Layout, i: nat, target: string, address: string) {
    && now.ListAt? && l.ListAt? && now.cell == l.cell && |now.nodes| == |l.nodes|
    && (forall j :: 0 <= j < |l.nodes| && j < i ==>
         Value(now.nodes[j]) == UpdateRemote(Value(l.nodes[j]), target, address))
    && (forall j :: i <= j < |l.nodes| ==> now.nodes[j] == l.nodes[j])
  }

  lemma AllVisited(now: Layout, l: Layout, target: string, address: string)
    requires l.DictAt? ==> VisitedBut(now, l, {}, target, address)
    requires l.ListAt? ==> VisitedUpTo(now, l, |l.nodes|, target, address)
    requires l.LeafAt? ==> now == l
    ensures Value(now) == UpdateRemote(Value(l), target, address)
  {
  }

  lemma NothingVisited(l: Layout, entries: map<Seg, Cell>, target: string, address: string)
    requires l.DictAt? && NodeOf(l) == DictNode(entries)
    ensures VisitedBut(l, l, entries.Keys, target, address)
  {
  }

  lemma EntryCell(l: Layout, entries: map<Seg, Cell>, key: Seg)
    requires l.DictAt? && NodeOf(l) == DictNode(entries) && key in entries
    ensures key in l.kids && l.kids[key].cell == entries[key]
  {
  }

  lemma GoodKid(l: Layout, s: Seg)
    requires Good(Value(l)) && Sub(l, s).Some?
    ensures var c := Value(Sub(l, s).value);
            if l.DictAt? && IsEndpointList(s, c)
            then forall i :: 0 <= i < |c.items| ==> GoodEndpoint(c.items[i])
            else Good(c)
  {
    SubCells(l, s);
    if l.DictAt? {
      assert Value(l).entries[s] == Value(Sub(l, s).value);
    } else {
      assert Value(l).items[s.index] == Value(Sub(l, s).value);
    }
  }

  lemma EntryVisited(now: Layout, l: Layout, rest: set<Seg>, key: Seg, k: Layout, target: string, address: string)
    requires VisitedBut(now, l, rest, target, address) && key in rest
    requires Value(k) == EntryUpdated(key, Value(l.kids[key]), target, address)
    ensures VisitedBut(ReplaceKid(now, key, k), l, rest - {key}, target, address)
  {
  }

  lemma ItemVisited(now: Layout, l: Layout, i: nat, k: Layout, target: string, address: string)
    requires VisitedUpTo(now, l, i, target, address) && i < |l.nodes|
    requires Value(k) == UpdateRemote(Value(l.nodes[i]), target, address)
    ensures VisitedUpTo(ReplaceKid(now, Idx(i), k), l, i + 1, target, address)
  {
  }

  /**
   update_remote_address: visits the entries of a dictionary in any order, and the items of a list, and
   makes of the tree in memory exactly what the function on values says.
   */
  method Rewrite(config: Cell, target: string, address: string, ghost l: Layout) returns (ghost after: Layout)
    requires Rooted(l, config) && Good(Value(l))
    modifies Cells(l)
    ensures Rooted(after, config) && fresh(Cells(after) - Cells(l))
            && Value(after) == UpdateRemote(Value(l), target, address)
    decreases l, 2
  {
    after := l;
    BelowCells(l, []);
    assert config.node == Contents(Cells(l))[config] == NodeOf(l);
    match config.node {
      case LeafNode(_) =>
      case DictNode(entries) => after := RewriteDict(config, entries, target, address, l);
      case ListNode(items) => after := RewriteList(config, items, target, address, l);
    }
  }

  /** Where the loop over a dictionary stands; the cells made so far are extra. */
  ghost predicate DictLoop(now: Layout, l: Layout, config: Cell, entries: map<Seg, Cell>, rest: set<Seg>,
                           target: string, address: string, extra: set<Cell>)
    reads Cells(now)
  {
    && Rooted(now, config) && Cells(now) <= Cells(l) + extra && rest <= entries.Keys
    && l.DictAt? && NodeOf(l) == DictNode(entries) && VisitedBut(now, l, rest, target, address)
  }

  lemma DictLoopStarts(l: Layout, config: Cell, entries: map<Seg, Cell>, target: string, address: string)
    requires Rooted(l, config) && l.DictAt? && NodeOf(l) == DictNode(entries)
    ensures DictLoop(l, l, config, entries, entries.Keys, target, address, {})
  {
    NothingVisited(l, entries, target, address);
  }

  lemma DictLoopEnds(now: Layout, l: Layout, config: Cell, entries: map<Seg, Cell>, target: string, address: string,
                     extra: set<Cell>)
    requires DictLoop(now, l, config, entries, {}, target, address, extra)
    ensures Rooted(now, config) && Cells(now) <= Cells(l) + extra
            && Value(now) == UpdateRemote(Value(l), target, address)
  {
    AllVisited(now, l, target, address);
  }

  method RewriteDict(config: Cell, entries: map<Seg, Cell>, target: string, address: string, ghost l: Layout)
    returns (ghost after: Layout)
    requires Rooted(l, config) && Good(Value(l)) && l.DictAt? && NodeOf(l) == DictNode(entries)
    modifies Cells(l)
    ensures Rooted(after, config) && fresh(Cells(after) - Cells(l))
            && Value(after) == UpdateRemote(Value(l), target, address)
    decreases l, 1
  {
    hide *;
    after := l;
    var rest := entries.Keys;
    ghost var extra: set<Cell> := {};
    DictLoopStarts(l, config, entries, target, address);
    while rest != {}
      invariant DictLoop(after, l, config, entries, rest, target, address, extra) && fresh(extra)
                && rest <= entries.Keys
      decreases rest
    {
      var key :| key in rest;
      after, extra := RewriteEntry(entries[key], key, target, address, config, entries, l, rest, after, extra);
      rest := rest - {key};
    }
    DictLoopEnds(after, l, config, entries, target, address, extra);
  }

  ghost predicate ListLoop(now: Layout, l: Layout, config: Cell, i: nat, target: string, address: string,
                           extra: set<Cell>)
    reads Cells(now)
  {
    Rooted(now, config) && Cells(now) <= Cells(l) + extra && VisitedUpTo(now, l, i, target, address)
  }

  lemma ListLoopStarts(l: Layout, config: Cell, target: string, address: string)
    requires Rooted(l, config) && l.ListAt?
    ensures ListLoop(l, l, config, 0, target, address, {})
  {
  }

  lemma ListLoopEnds(now: Layout, l: Layout, config: Cell, target: string, address: string, extra: set<Cell>)
    requires l.ListAt? && ListLoop(now, l, config, |l.nodes|, target, address, extra)
    ensures Rooted(now, config) && Cells(now) <= Cells(l) + extra
            && Value(now) == UpdateRemote(Value(l), target, address)
  {
    AllVisited(now, l, target, address);
  }

  lemma ListItems(l: Layout, items: seq<Cell>)
    requires l.ListAt? && NodeOf(l) == ListNode(items)
    ensures |items| == |l.nodes| && forall i :: 0 <= i < |items| ==> l.nodes[i].cell == items[i]
  {
  }

  method RewriteList(config: Cell, items: seq<Cell>, target: string, address: string, ghost l: Layout)
    returns (ghost after: Layout)
    requires Rooted(l, config) && Good(Value(l)) && l.ListAt? && NodeOf(l) == ListNode(items)
    modifies Cells(l)
    ensures Rooted(after, config) && fresh(Cells(after) - Cells(l))
            && Value(after) == UpdateRemote(Value(l), target, address)
    decreases l, 1
  {
    hide *;
    after := l;
    ghost var extra: set<Cell> := {};
    ListItems(l, items);
    ListLoopStarts(l, config, target, address);
    for i := 0 to |items|
      invariant ListLoop(after, l, config, i, target, address, extra) && fresh(extra)
    {
      after, extra := RewriteItem(items[i], i, target, address, config, l, after, extra);
    }
    ListLoopEnds(after, l, config, target, address, extra);
  }

  method VisitEntry(value: Cell, key: Seg, target: string, address: string, ghost kid: Layout)
    returns (ghost after: Layout)
    requires Rooted(kid, value) && value.node == NodeOf(kid)
    requires if IsEndpointList(key, Value(kid))
             then forall i :: 0 <= i < |Value(kid).items| ==> GoodEndpoint(Value(kid).items[i])
             else Good(Value(kid))
    modifies Cells(kid)
    ensures Rooted(after, value) && fresh(Cells(after) - Cells(kid))
            && Value(after) == EntryUpdated(key, Value(kid), target, address)
    decreases kid, 3
  {
    if key == ENDPOINT && value.node.ListNode? {
      assert forall i :: 0 <= i < |kid.nodes| ==> Value(kid).items[i] == Value(kid.nodes[i]);
      after := ReaddressAll(value, target, address, kid);
    } else {
      after := Rewrite(value, target, address, kid);
    }
  }

  /** What is known of a kid that the loop has not visited yet. */
  ghost predicate Unvisited(now: Layout, config: Cell, s: Seg, kid: Layout, value: Cell)
    reads Cells(now), Cells(kid), value
  {
    && Distinct(now) && Holds(now, Contents(Cells(now))) && now.cell == config && Sub(now, s) == Some(kid)
    && Rooted(kid, value) && Cells(kid) <= Cells(now) && value.node == NodeOf(kid)
  }

  lemma EntryReady(now: Layout, l: Layout, config: Cell, entries: map<Seg, Cell>, rest: set<Seg>, key: Seg,
                   target: string, address: string, extra: set<Cell>)
    requires Good(Value(l)) && DictLoop(now, l, config, entries, rest, target, address, extra) && key in rest
    ensures l.DictAt? && key in l.kids && Unvisited(now, config, key, l.kids[key], entries[key])
            && Cells(now) <= Cells(l) + extra
    ensures var c := Value(l.kids[key]);
            if IsEndpointList(key, c) then forall i :: 0 <= i < |c.items| ==> GoodEndpoint(c.items[i]) else Good(c)
  {
    EntryCell(l, entries, key);
    KidRooted(now, config, key);
    GoodKid(l, key);
  }

  lemma EntryDone(now: Layout, after: Layout, l: Layout, config: Cell, entries: map<Seg, Cell>, rest: set<Seg>,
                  key: Seg, k: Layout,
                  target: string, address: string, more: set<Cell>)
    requires l.DictAt? && NodeOf(l) == DictNode(entries) && rest <= entries.Keys
    requires VisitedBut(now, l, rest, target, address) && key in rest && after == ReplaceKid(now, key, k)
    requires Value(k) == EntryUpdated(key, Value(l.kids[key]), target, address)
    requires Rooted(after, config) && Cells(after) <= Cells(l) + more
    ensures DictLoop(after, l, config, entries, rest - {key}, target, address, more)
  {
    EntryVisited(now, l, rest, key, k, target, address);
  }

  lemma DictLoopMeans(now: Layout, l: Layout, config: Cell, entries: map<Seg, Cell>, rest: set<Seg>, target: string,
                      address: string, extra: set<Cell>)
    requires DictLoop(now, l, config, entries, rest, target, address, extra)
    ensures l.DictAt? && NodeOf(l) == DictNode(entries) && rest <= entries.Keys
            && VisitedBut(now, l, rest, target, address)
  {
  }

  /** One kid of a dictionary or list is rewritten in place; the others keep their cells. */
  method RewriteKid(value: Cell, s: Seg, target: string, address: string, isEntry: bool, ghost config: Cell,
                    ghost now: Layout, ghost kid: Layout)
    returns (ghost after: Layout, ghost k: Layout)
    requires Unvisited(now, config, s, kid, value)
    requires var c := Value(kid);
             if isEntry && IsEndpointList(s, c)
             then forall i :: 0 <= i < |c.items| ==> GoodEndpoint(c.items[i])
             else Good(c)
    modifies Cells(kid)
    ensures Sub(now, s).Some? && after == ReplaceKid(now, s, k) && Rooted(after, config)
    ensures Cells(after) <= Cells(now) + Cells(k) && fresh(Cells(k) - Cells(kid))
    ensures Value(k) == if isEntry then EntryUpdated(s, Value(kid), target, address)
            else UpdateRemote(Value(kid), target, address)
    decreases kid, 4
  {
    hide *;
    ghost var before := Contents(Cells(now));
    ContentsAre(Cells(now));
    UnvisitedMeans(now, config, s, kid, value);
    if isEntry {
      k := VisitEntry(value, s, target, address, kid);
    } else {
      k := Rewrite(value, target, address, kid);
    }
    KidChanged(now, config, s, kid, k, before);
    after := ReplaceKid(now, s, k);
  }

  lemma UnvisitedMeans(now: Layout, config: Cell, s: Seg, kid: Layout, value: Cell)
    requires Unvisited(now, config, s, kid, value)
    ensures Distinct(now) && Holds(now, Contents(Cells(now))) && now.cell == config && Sub(now, s) == Some(kid)
    ensures Rooted(kid, value) && kid.cell == value && Cells(kid) <= Cells(now) && value.node == NodeOf(kid)
  {
  }

  method RewriteEntry(value: Cell, key: Seg, target: string, address: string, ghost config: Cell,
                      ghost entries: map<Seg, Cell>,
                      ghost l: Layout, ghost rest: set<Seg>, ghost now: Layout, ghost extra: set<Cell>)
    returns (ghost after: Layout, ghost more: set<Cell>)
    requires Good(Value(l)) && DictLoop(now, l, config, entries, rest, target, address, extra) && key in rest
             && entries[key] == value
    modifies Cells(l), extra
    ensures DictLoop(after, l, config, entries, rest - {key}, target, address, more) && extra <= more
            && fresh(more - extra)
    decreases l, 0
  {
    hide *;
    EntryReady(now, l, config, entries, rest, key, target, address, extra);
    DictLoopMeans(now, l, config, entries, rest, target, address, extra);
    UnvisitedMeans(now, config, key, l.kids[key], value);
    ghost var k;
    after, k := RewriteKid(value, key, target, address, true, config, now, l.kids[key]);
    more := extra + (Cells(k) - Cells(l.kids[key]));
    EntryDone(now, after, l, config, entries, rest, key, k, target, address, more);
  }

  lemma ItemReady(now: Layout, l: Layout, config: Cell, i: nat, target: string, address: string, extra: set<Cell>)
    requires Good(Value(l)) && ListLoop(now, l, config, i, target, address, extra) && l.ListAt? && i < |l.nodes|
    ensures Unvisited(now, config, Idx(i), l.nodes[i], l.nodes[i].cell) && Cells(now) <= Cells(l) + extra
            && Good(Value(l.nodes[i]))
    ensures VisitedUpTo(now, l, i, target, address)
  {
    KidRooted(now, config, Idx(i));
    GoodKid(l, Idx(i));
  }

  lemma ItemDone(now: Layout, after: Layout, l: Layout, config: Cell, i: nat, k: Layout, target: string,
                 address: string, more: set<Cell>)
    requires VisitedUpTo(now, l, i, target, address) && i < |l.nodes| && after == ReplaceKid(now, Idx(i), k)
    requires Value(k) == UpdateRemote(Value(l.nodes[i]), target, address)
    requires Rooted(after, config) && Cells(after) <= Cells(l) + more
    ensures ListLoop(after, l, config, i + 1, target, address, more)
  {
    ItemVisited(now, l, i, k, target, address);
  }

  method RewriteItem(item: Cell, i: nat, target: string, address: string, ghost config: Cell, ghost l: Layout,
                     ghost now: Layout, ghost extra: set<Cell>)
    returns (ghost after: Layout, ghost more: set<Cell>)
    requires Good(Value(l)) && ListLoop(now, l, config, i, target, address, extra) && l.ListAt? && i < |l.nodes|
             && l.nodes[i].cell == item
    modifies Cells(l), extra
    ensures ListLoop(after, l, config, i + 1, target, address, more) && extra <= more && fresh(more - extra)
    decreases l, 0
  {
    hide *;
    ItemReady(now, l, config, i, target, address, extra);
    UnvisitedMeans(now, config, Idx(i), l.nodes[i], item);
    ghost var k;
    after, k := RewriteKid(item, Idx(i), target, address, false, config, now, l.nodes[i]);
    more := extra + (Cells(k) - Cells(l.nodes[i]));
    ItemDone(now, after, l, config, i, k, target, address, more);
  }
}
