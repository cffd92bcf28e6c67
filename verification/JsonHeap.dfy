/**
 The same trees as they lie in memory: cells that are assigned in place. update_key and delete_key walk
 a cursor down and change the cell it arrives at; the tree that the cells hold changes as JsonTree says.
 */
module JsonHeap {
  import opened Strings
  import opened JsonTree

  datatype Node = LeafNode(value: string) | DictNode(entries: map<Seg, Cell>) | ListNode(items: seq<Cell>)

  class Cell {
    var node: Node

    constructor (node: Node)
      ensures this.node == node
    {
      this.node := node;
    }
  }

  /** A tree of cells, for specification: which cell is where. */
  datatype Layout =
    | LeafAt(cell: Cell, value: string)
    | DictAt(cell: Cell, kids: map<Seg, Layout>)
    | ListAt(cell: Cell, nodes: seq<Layout>)

  /** The JSON value a layout stands for. */
  ghost function Value(l: Layout): Json {
    match l
    case LeafAt(_, value) => Leaf(value)
    case DictAt(_, kids) => Dict(map s | s in kids :: Value(kids[s]))
    case ListAt(_, nodes) => List(seq(|nodes|, i requires 0 <= i < |nodes| => Value(nodes[i])))
  }

  ghost function Cells(l: Layout): set<Cell> {
    match l
    case LeafAt(cell, _) => {cell}
    case DictAt(cell, kids) => {cell} + set s, c | s in kids && c in Cells(kids[s]) :: c
    case ListAt(cell, nodes) => {cell} + set i, c | 0 <= i < |nodes| && c in Cells(nodes[i]) :: c
  }

  ghost function Sub(l: Layout, s: Seg): Option<Layout> {
    match l
    case LeafAt(_, _) => None
    case DictAt(_, kids) => if s in kids then Some(kids[s]) else None
    case ListAt(_, nodes) => if s.Idx? && s.index < |nodes| then Some(nodes[s.index]) else None
  }

  /** No cell is in two places. */
  ghost predicate Distinct(l: Layout) {
    match l
    case LeafAt(_, _) => true
    case DictAt(cell, kids) =>
      && (forall s :: s in kids ==> Distinct(kids[s]) && cell !in Cells(kids[s]))
      && (forall s, r :: s in kids && r in kids && s != r ==> Cells(kids[s]) !! Cells(kids[r]))
    case ListAt(cell, nodes) =>
      && (forall i :: 0 <= i < |nodes| ==> Distinct(nodes[i]) && cell !in Cells(nodes[i]))
      && (forall i, j :: 0 <= i < j < |nodes| ==> Cells(nodes[i]) !! Cells(nodes[j]))
  }

  /** What the cell at the root of a layout must contain. */
  ghost function NodeOf(l: Layout): Node {
    match l
    case LeafAt(_, value) => LeafNode(value)
    case DictAt(_, kids) => DictNode(map s | s in kids :: kids[s].cell)
    case ListAt(_, nodes) => ListNode(seq(|nodes|, i requires 0 <= i < |nodes| => nodes[i].cell))
  }

  /** What some cells contain. */
  type Memory = map<Cell, Node>

  ghost function Contents(cells: set<Cell>): Memory
    reads cells
  {
    map c | c in cells :: c.node
  }

  /** The cells contain the layout. */
  ghost predicate Holds(l: Layout, m: Memory) {
    && l.cell in m && m[l.cell] == NodeOf(l)
    && match l
       case LeafAt(_, _) => true
       case DictAt(_, kids) => forall s :: s in kids ==> Holds(kids[s], m)
       case ListAt(_, nodes) => forall i :: 0 <= i < |nodes| ==> Holds(nodes[i], m)
  }

  ghost function Below(l: Layout, p: Path): Option<Layout> {
    if p == [] then Some(l) else if Sub(l, p[0]).None? then None else Below(Sub(l, p[0]).value, p[1..])
  }

  ghost function ReplaceKid(l: Layout, s: Seg, k: Layout): Layout
    requires Sub(l, s).Some?
  {
    match l
    case DictAt(cell, kids) => DictAt(cell, kids[s := k])
    case ListAt(cell, nodes) => ListAt(cell, nodes[s.index := k])
  }

  ghost function ReplaceAt(l: Layout, p: Path, k: Layout): Layout
    requires Below(l, p).Some?
  {
    if p == [] then k else ReplaceKid(l, p[0], ReplaceAt(Sub(l, p[0]).value, p[1..], k))
  }

  lemma RootNode(l: Layout, m: Memory)
    ensures l.cell in Cells(l)
    ensures Holds(l, m) ==> l.cell in m && m[l.cell] == NodeOf(l)
  {
  }

  lemma SubCells(l: Layout, s: Seg)
    requires Sub(l, s).Some?
    ensures Cells(Sub(l, s).value) <= Cells(l) && Value(Sub(l, s).value) == Child(Value(l), s).value
    ensures Child(Value(l), s).Some?
    ensures Distinct(l) ==> Distinct(Sub(l, s).value) && l.cell !in Cells(Sub(l, s).value)
  {
  }

  lemma {:induction false} BelowCells(l: Layout, p: Path)
    requires Below(l, p).Some?
    ensures Cells(Below(l, p).value) <= Cells(l) && Below(l, p).value.cell in Cells(l)
    ensures Get(Value(l), p) == Some(Value(Below(l, p).value))
    ensures Distinct(l) ==> Distinct(Below(l, p).value)
    decreases |p|
  {
    if p != [] {
      SubCells(l, p[0]);
      BelowCells(Sub(l, p[0]).value, p[1..]);
    }
  }

  lemma {:induction false} BelowHolds(l: Layout, p: Path, m: Memory)
    requires Holds(l, m) && Below(l, p).Some?
    ensures Holds(Below(l, p).value, m)
    decreases |p|
  {
    if p != [] {
      BelowHolds(Sub(l, p[0]).value, p[1..], m);
    }
  }

  lemma BelowOneMore(l: Layout, p: Path, i: nat)
    requires i < |p| && Below(l, p[..i]).Some?
    ensures Below(l, p[..i + 1]) == Sub(Below(l, p[..i]).value, p[i])
    decreases i
  {
    if i > 0 {
      assert p[..i][1..] == p[1..][..i - 1] && p[..i + 1][1..] == p[1..][..i];
      BelowOneMore(Sub(l, p[0]).value, p[1..], i - 1);
    } else {
      assert p[..1] == [p[0]] && p[..1][1..] == [];
    }
  }

  lemma {:induction false} ReplacedValue(l: Layout, p: Path, k: Layout)
    requires Below(l, p).Some?
    ensures Get(Value(l), p).Some? && Value(ReplaceAt(l, p, k)) == Put(Value(l), p, Value(k))
    decreases |p|
  {
    BelowCells(l, p);
    if p != [] {
      SubCells(l, p[0]);
      var kid := Sub(l, p[0]).value;
      ReplacedValue(kid, p[1..], k);
      var kid' := ReplaceAt(kid, p[1..], k);
      if l.DictAt? {
        assert Value(ReplaceKid(l, p[0], kid')) == Dict(Value(l).entries[p[0] := Value(kid')]);
      }
    }
  }

  /** Cells that have not been assigned still hold what they held. */
  lemma {:induction false} StillHolds(l: Layout, before: Memory, after: Memory)
    requires Holds(l, before) && forall c :: c in Cells(l) && c in before ==> c in after && after[c] == before[c]
    ensures Holds(l, after)
  {
    match l
    case LeafAt(_, _) =>
    case DictAt(_, kids) =>
      forall s | s in kids
        ensures Holds(kids[s], after)
      {
        SubCells(l, s);
        StillHolds(kids[s], before, after);
      }
    case ListAt(_, nodes) =>
      forall i | 0 <= i < |nodes|
        ensures Holds(nodes[i], after)
      {
        SubCells(l, Idx(i));
        StillHolds(nodes[i], before, after);
      }
  }

  /** No cell but those below the place was assigned. */
  ghost predicate SameOutside(l: Layout, below: Layout, before: Memory, after: Memory) {
    forall c :: c in Cells(l) - Cells(below) && c in before ==> c in after && after[c] == before[c]
  }

  lemma SubsDisjoint(l: Layout, s: Seg, r: Seg)
    requires Distinct(l) && Sub(l, s).Some? && Sub(l, r).Some? && s != r
    ensures Cells(Sub(l, s).value) !! Cells(Sub(l, r).value)
  {
  }

  lemma SubsMakeDistinct(k: Layout)
    requires forall r :: Sub(k, r).Some? ==> Distinct(Sub(k, r).value) && k.cell !in Cells(Sub(k, r).value)
    requires forall q, r :: Sub(k, q).Some? && Sub(k, r).Some? && q != r ==>
               Cells(Sub(k, q).value) !! Cells(Sub(k, r).value)
    ensures Distinct(k)
    ensures forall c :: c in Cells(k) ==> c == k.cell || exists r :: Sub(k, r).Some? && c in Cells(Sub(k, r).value)
  {
    match k
    case LeafAt(_, _) =>
    case DictAt(_, kids) =>
      assert forall s :: s in kids ==> Sub(k, s) == Some(kids[s]);
    case ListAt(_, nodes) =>
      assert forall i: nat :: i < |nodes| ==> Sub(k, Idx(i)) == Some(nodes[i]);
  }

  lemma OtherKidApart(l: Layout, s: Seg, r: Seg, k: Layout)
    requires Distinct(l) && Sub(l, s).Some? && Sub(l, r).Some? && r != s
    requires Cells(k) !! Cells(l) - Cells(Sub(l, s).value)
    ensures Cells(Sub(l, r).value) !! Cells(k) && Cells(Sub(l, r).value) <= Cells(l)
    ensures Distinct(Sub(l, r).value) && l.cell !in Cells(Sub(l, r).value)
  {
    SubCells(l, r);
    SubsDisjoint(l, s, r);
  }

  lemma ReplacedCells(l: Layout, s: Seg, k: Layout)
    requires Distinct(l) && Sub(l, s).Some? && Distinct(k) && k.cell == Sub(l, s).value.cell
    requires Cells(k) !! Cells(l) - Cells(Sub(l, s).value)
    ensures Distinct(ReplaceKid(l, s, k))
    ensures Cells(ReplaceKid(l, s, k)) <= Cells(l) + Cells(k)
  {
    hide Cells, Distinct, Holds;
    SubCells(l, s);
    var l' := ReplaceKid(l, s, k);
    assert forall r :: Sub(l', r) == if r == s then Some(k) else Sub(l, r);
    forall r | Sub(l, r).Some? && r != s
      ensures Cells(Sub(l, r).value) !! Cells(k) && Cells(Sub(l, r).value) <= Cells(l)
      ensures Distinct(Sub(l, r).value) && l.cell !in Cells(Sub(l, r).value)
    {
      OtherKidApart(l, s, r, k);
    }
    forall q, r | Sub(l, q).Some? && Sub(l, r).Some? && q != r
      ensures Cells(Sub(l, q).value) !! Cells(Sub(l, r).value)
    {
      SubsDisjoint(l, q, r);
    }
    RootNode(l, map[]);
    SubsMakeDistinct(l');
  }

  lemma SameNode(l: Layout, s: Seg, k: Layout)
    requires Sub(l, s).Some? && k.cell == Sub(l, s).value.cell
    ensures NodeOf(ReplaceKid(l, s, k)) == NodeOf(l)
  {
    if l.DictAt? {
      assert NodeOf(ReplaceKid(l, s, k)).entries == NodeOf(l).entries;
    }
  }

  lemma OtherKidHolds(l: Layout, s: Seg, r: Seg, before: Memory, after: Memory)
    requires Distinct(l) && Holds(l, before) && Sub(l, s).Some? && Sub(l, r).Some? && r != s
    requires SameOutside(l, Sub(l, s).value, before, after)
    ensures Holds(Sub(l, r).value, after)
  {
    SubCells(l, r);
    assert Cells(Sub(l, r).value) !! Cells(Sub(l, s).value);
    StillHolds(Sub(l, r).value, before, after);
  }

  lemma ReplacedHolds(l: Layout, s: Seg, k: Layout, before: Memory, after: Memory)
    requires Distinct(l) && Holds(l, before) && Sub(l, s).Some?
    requires Holds(k, after) && k.cell == Sub(l, s).value.cell && SameOutside(l, Sub(l, s).value, before, after)
    ensures Holds(ReplaceKid(l, s, k), after)
  {
    SubCells(l, s);
    SameNode(l, s, k);
    if l.DictAt? {
      forall r | r in l.kids && r != s
        ensures Holds(l.kids[r], after)
      {
        OtherKidHolds(l, s, r, before, after);
      }
    } else {
      forall i: nat | i < |l.nodes| && i != s.index
        ensures Holds(l.nodes[i], after)
      {
        OtherKidHolds(l, s, Idx(i), before, after);
      }
    }
  }

  /**
   When the cells below a path hold something new and no other cell was assigned, the whole holds the old layout
   with that in place.
   */
  lemma {:induction false} Reseated(l: Layout, p: Path, k: Layout, before: Memory, after: Memory)
    requires Distinct(l) && Holds(l, before) && Below(l, p).Some?
    requires Distinct(k) && Holds(k, after) && k.cell == Below(l, p).value.cell
    requires Cells(k) !! Cells(l) - Cells(Below(l, p).value) && SameOutside(l, Below(l, p).value, before, after)
    ensures var l' := ReplaceAt(l, p, k);
            Distinct(l') && Holds(l', after) && l'.cell == l.cell && Cells(l') <= Cells(l) + Cells(k)
    decreases |p|
  {
    if p != [] {
      SubCells(l, p[0]);
      var kid := Sub(l, p[0]).value;
      BelowCells(kid, p[1..]);
      Reseated(kid, p[1..], k, before, after);
      ReplacedCells(l, p[0], ReplaceAt(kid, p[1..], k));
      ReplacedHolds(l, p[0], ReplaceAt(kid, p[1..], k), before, after);
    }
  }

  // ---------- assigning one cell ----------

  /** A cell that gets a new node, over kids that are in memory already, holds the new layout. */
  lemma RootAssigned(k: Layout, m: Memory)
    requires !k.LeafAt? && forall s :: Sub(k, s).Some? ==>
               Holds(Sub(k, s).value, m) && k.cell !in Cells(Sub(k, s).value)
    ensures Holds(k, m[k.cell := NodeOf(k)])
  {
    var after := m[k.cell := NodeOf(k)];
    if k.DictAt? {
      forall s | s in k.kids
        ensures Holds(k.kids[s], after)
      {
        assert Sub(k, s).Some?;
        StillHolds(k.kids[s], m, after);
      }
    } else {
      forall i: nat | i < |k.nodes|
        ensures Holds(k.nodes[i], after)
      {
        assert Sub(k, Idx(i)).Some?;
        StillHolds(k.nodes[i], m, after);
      }
    }
  }

  /** A layout that may be put into another one. */
  ghost predicate Fits(l: Layout, v: Layout, m: Memory) {
    Distinct(l) && Distinct(v) && Holds(l, m) && Holds(v, m) && Cells(l) !! Cells(v)
  }

  /** What becomes of l when its cell is assigned the node of k. */
  ghost predicate Becomes(l: Layout, k: Layout, v: Layout, m: Memory) {
    k.cell == l.cell && Distinct(k) && Cells(k) <= Cells(l) + Cells(v) && Holds(k, m[l.cell := NodeOf(k)])
  }

  lemma SubHolds(l: Layout, s: Seg, m: Memory)
    requires Distinct(l) && Holds(l, m) && Sub(l, s).Some?
    ensures var k := Sub(l, s).value; Holds(k, m) && Distinct(k) && Cells(k) <= Cells(l) && l.cell !in Cells(k)
  {
  }

  ghost function Appended(l: Layout, v: Layout): Layout
    requires l.ListAt?
  {
    ListAt(l.cell, l.nodes + [v])
  }

  /** Entry s assigned: in a list it must be there, in a dictionary it may be new. */
  ghost function Assigned(l: Layout, s: Seg, v: Layout): Layout
    requires l.DictAt? || (l.ListAt? && s.Idx? && s.index < |l.nodes|)
  {
    if l.DictAt? then DictAt(l.cell, l.kids[s := v]) else ListAt(l.cell, l.nodes[s.index := v])
  }

  /** The kids of k are kids of l, but for v under s. */
  ghost predicate OneNewKid(l: Layout, s: Seg, v: Layout, k: Layout) {
    && k.cell == l.cell && !k.LeafAt?
    && forall r :: Sub(k, r) == if r == s then Some(v) else Sub(l, r)
  }

  lemma KidsFit(l: Layout, s: Seg, v: Layout, k: Layout, m: Memory)
    requires Fits(l, v, m) && OneNewKid(l, s, v, k)
    ensures forall r :: Sub(k, r).Some? ==>
                          && Holds(Sub(k, r).value, m) && Distinct(Sub(k, r).value)
                          && k.cell !in Cells(Sub(k, r).value) && Cells(Sub(k, r).value) <= Cells(l) + Cells(v)
  {
  }

  lemma KidsDisjoint(l: Layout, s: Seg, v: Layout, k: Layout, m: Memory)
    requires Fits(l, v, m) && OneNewKid(l, s, v, k)
    ensures forall q, r :: Sub(k, q).Some? && Sub(k, r).Some? && q != r ==>
              Cells(Sub(k, q).value) !! Cells(Sub(k, r).value)
  {
  }

  lemma NewKidFits(l: Layout, s: Seg, v: Layout, k: Layout, m: Memory)
    requires Fits(l, v, m) && OneNewKid(l, s, v, k)
    ensures Becomes(l, k, v, m)
  {
    KidsFit(l, s, v, k, m);
    KidsDisjoint(l, s, v, k, m);
    SubsMakeDistinct(k);
    assert l.cell in Cells(l);
    RootAssigned(k, m);
  }

  lemma AppendFits(l: Layout, v: Layout, m: Memory)
    requires l.ListAt? && Fits(l, v, m)
    ensures Becomes(l, Appended(l, v), v, m) && Value(Appended(l, v)) == List(Value(l).items + [Value(v)])
  {
    NewKidFits(l, Idx(|l.nodes|), v, Appended(l, v), m);
  }

  lemma AssignFits(l: Layout, s: Seg, v: Layout, m: Memory)
    requires (l.DictAt? || Sub(l, s).Some?) && Fits(l, v, m)
    ensures Becomes(l, Assigned(l, s, v), v, m) && Value(Assigned(l, s, v)) == With(Value(l), s, Value(v))
  {
    NewKidFits(l, s, v, Assigned(l, s, v), m);
    if l.DictAt? {
      assert Value(Assigned(l, s, v)).entries == Value(l).entries[s := Value(v)];
    }
  }

  /** A layout with one entry taken out; later items of a list move up. */
  ghost function Removed(l: Layout, s: Seg): Layout
    requires Sub(l, s).Some?
  {
    if l.DictAt? then DictAt(l.cell, l.kids - {s}) else ListAt(l.cell, l.nodes[..s.index] + l.nodes[s.index + 1..])
  }

  /** Where the entries of Removed come from. */
  function Origin(l: Layout, s: Seg, r: Seg): Seg {
    if l.ListAt? && s.Idx? && r.Idx? && r.index >= s.index then Idx(r.index + 1) else r
  }

  lemma RemoveFits(l: Layout, s: Seg, m: Memory)
    requires Sub(l, s).Some? && Distinct(l) && Holds(l, m)
    ensures Becomes(l, Removed(l, s), l, m)
    ensures Value(Removed(l, s)) == (match Value(l)
                                     case Dict(entries) => Dict(entries - {s})
                                     case List(items) => List(WithoutItem(items, s.index)))
  {
    hide Cells, Distinct, Holds;
    var k := Removed(l, s);
    forall r | Sub(k, r).Some?
      ensures Sub(k, r) == Sub(l, Origin(l, s, r))
      ensures Holds(Sub(k, r).value, m) && Distinct(Sub(k, r).value)
      ensures k.cell !in Cells(Sub(k, r).value) && Cells(Sub(k, r).value) <= Cells(l)
    {
      SubHolds(l, Origin(l, s, r), m);
    }
    forall q, r | Sub(k, q).Some? && Sub(k, r).Some? && q != r
      ensures Cells(Sub(k, q).value) !! Cells(Sub(k, r).value)
    {
      SubsDisjoint(l, Origin(l, s, q), Origin(l, s, r));
    }
    SubsMakeDistinct(k);
    RootNode(l, m);
    RootAssigned(k, m);
    RemovedValue(l, s);
  }

  lemma RemovedValue(l: Layout, s: Seg)
    requires Sub(l, s).Some?
    ensures Value(Removed(l, s)) == (match Value(l)
                                     case Dict(entries) => Dict(entries - {s})
                                     case List(items) => List(WithoutItem(items, s.index)))
  {
  }

  lemma NodesOfChanged(l: Layout, s: Seg, v: Layout)
    ensures l.ListAt? ==> NodeOf(Appended(l, v)) == ListNode(NodeOf(l).items + [v.cell])
    ensures l.DictAt? ==> NodeOf(Assigned(l, s, v)) == DictNode(NodeOf(l).entries[s := v.cell])
    ensures l.ListAt? && s.Idx? && s.index < |l.nodes| ==>
              NodeOf(Assigned(l, s, v)) == ListNode(NodeOf(l).items[s.index := v.cell])
  {
    if l.DictAt? {
      assert NodeOf(Assigned(l, s, v)).entries == NodeOf(l).entries[s := v.cell];
    }
  }

  lemma NodesOfRemoved(l: Layout, s: Seg)
    requires Sub(l, s).Some?
    ensures l.DictAt? ==> NodeOf(Removed(l, s)) == DictNode(NodeOf(l).entries - {s})
    ensures l.ListAt? ==> NodeOf(Removed(l, s)) == ListNode(NodeOf(l).items[..s.index] + NodeOf(l).items[s.index + 1..])
  {
    if l.DictAt? {
      assert NodeOf(Removed(l, s)).entries == NodeOf(l).entries - {s};
    }
  }

  /** The layout of a dictionary after an append to a list in it. */
  ghost function AppendedIn(l: Layout, s: Seg, v: Layout): Layout
    requires l.DictAt? && s in l.kids && l.kids[s].ListAt?
  {
    ReplaceKid(l, s, Appended(l.kids[s], v))
  }

  lemma AppendInFits(l: Layout, s: Seg, v: Layout, m: Memory)
    requires l.DictAt? && s in l.kids && l.kids[s].ListAt? && Fits(l, v, m)
    ensures var (k, list) := (AppendedIn(l, s, v), l.kids[s]);
            && k.cell == l.cell && Distinct(k) && Cells(k) <= Cells(l) + Cells(v)
            && list.cell in Cells(l) && Holds(k, m[list.cell := NodeOf(Appended(list, v))])
  {
    var list := l.kids[s];
    SubHolds(l, s, m);
    AppendFits(list, v, m);
    ReplacedCells(l, s, Appended(list, v));
    ReplacedHolds(l, s, Appended(list, v), m, m[list.cell := NodeOf(Appended(list, v))]);
    BelowCells(list, []);
  }

  lemma AppendInValue(l: Layout, s: Seg, v: Layout)
    requires l.DictAt? && s in l.kids && l.kids[s].ListAt?
    ensures Value(AppendedIn(l, s, v)) == With(Value(l), s, List(Value(l.kids[s]).items + [Value(v)]))
  {
    assert Value(AppendedIn(l, s, v)).entries == Value(l).entries[s := Value(Appended(l.kids[s], v))];
    assert Value(Appended(l.kids[s], v)).items == Value(l.kids[s]).items + [Value(v)];
  }

  // ---------- the template ----------

  /** An assignment to one cell. */
  method SetNode(cell: Cell, node: Node, ghost all: set<Cell>)
    requires cell in all
    modifies cell
    ensures Contents(all) == old(Contents(all))[cell := node]
  {
    cell.node := node;
  }

  /** What an operation on a place amounts to: it fails and changes nothing, or the place has the new value. */
  ghost predicate Arrived(r: Result<Json>, error: Option<Error>, before: Layout, after: Layout) {
    match r
    case Failed(e) => error == Some(e) && after == before
    case Done(t) => error.None? && Value(after) == t
  }

  /** The last step of update_key: an assignment, or an append, to the cell under the cursor or to a list in it. */
  method AssignLast(current: Cell, last: Option<Seg>, value: Cell, append: bool, ghost at: Layout, ghost v: Layout,
                    ghost all: set<Cell>)
    returns (error: Option<Error>, ghost after: Layout)
    requires at.cell == current && v.cell == value && Cells(at) + Cells(v) <= all && Fits(at, v, Contents(all))
    modifies Cells(at)
    ensures Arrived(Assign(Value(at), if last.Some? then [last.value] else [], Value(v), append), error, at, after)
    ensures after.cell == current && Distinct(after) && Holds(after, Contents(all))
            && Cells(after) <= Cells(at) + Cells(v)
  {
    after := at;
    BelowCells(at, []);
    assert current.node == Contents(all)[current] == NodeOf(at);
    if append && current.node.ListNode? {
      AppendFits(at, v, Contents(all));
      NodesOfChanged(at, Idx(0), v);
      after := Appended(at, v);
      SetNode(current, ListNode(current.node.items + [value]), all);
      return None, after;
    }
    if last.None? {
      return Some(IndexError), after;
    }
    var s := last.value;
    match current.node {
      case LeafNode(_) =>
        return Some(TypeError), after;
      case ListNode(items) =>
        if !s.Idx? {
          return Some(TypeError), after;
        }
        if s.index >= |items| {
          return Some(IndexError), after;
        }
        AssignFits(at, s, v, Contents(all));
        NodesOfChanged(at, s, v);
        after := Assigned(at, s, v);
        SetNode(current, ListNode(items[s.index := value]), all);
      case DictNode(entries) =>
        after := AssignEntry(current, entries, s, value, append, at, v, all);
    }
    error := None;
  }

  method AssignEntry(current: Cell, entries: map<Seg, Cell>, s: Seg, value: Cell, append: bool, ghost at: Layout,
                     ghost v: Layout, ghost all: set<Cell>)
    returns (ghost after: Layout)
    requires at.DictAt? && at.cell == current && v.cell == value && Cells(at) + Cells(v) <= all
             && Fits(at, v, Contents(all))
    requires current.node == DictNode(entries)
    modifies Cells(at)
    ensures Assign(Value(at), [s], Value(v), append) == Done(Value(after))
    ensures after.cell == current && Distinct(after) && Holds(after, Contents(all))
            && Cells(after) <= Cells(at) + Cells(v)
  {
    hide Cells, Distinct, Holds;
    RootNode(at, Contents(all));
    if s in entries && append {
      EntryNode(at, s, all);
      if entries[s].node.ListNode? {
        after := AppendToEntry(entries[s], s, value, at, v, all);
        return;
      }
    }
    AssignFits(at, s, v, Contents(all));
    NodesOfChanged(at, s, v);
    after := Assigned(at, s, v);
    SetNode(current, DictNode(entries[s := value]), all);
  }

  lemma EntryNode(at: Layout, s: Seg, all: set<Cell>)
    requires at.DictAt? && s in at.kids && Cells(at) <= all && Distinct(at) && Holds(at, Contents(all))
    ensures at.kids[s].cell in all && at.kids[s].cell.node == NodeOf(at.kids[s])
  {
    SubHolds(at, s, Contents(all));
    BelowCells(at.kids[s], []);
    assert at.kids[s].cell.node == Contents(all)[at.kids[s].cell];
  }

  method AppendToEntry(list: Cell, s: Seg, value: Cell, ghost at: Layout, ghost v: Layout, ghost all: set<Cell>)
    returns (ghost after: Layout)
    requires at.DictAt? && s in at.kids && at.kids[s].ListAt? && at.kids[s].cell == list && v.cell == value
    requires Cells(at) + Cells(v) <= all && Fits(at, v, Contents(all)) && list.node == NodeOf(at.kids[s])
    modifies Cells(at)
    ensures Value(after) == With(Value(at), s, List(Value(at.kids[s]).items + [Value(v)]))
    ensures after.cell == at.cell && Distinct(after) && Holds(after, Contents(all))
            && Cells(after) <= Cells(at) + Cells(v)
  {
    AppendInFits(at, s, v, Contents(all));
    AppendInValue(at, s, v);
    NodesOfChanged(at.kids[s], s, v);
    after := AppendedIn(at, s, v);
    SetNode(list, ListNode(list.node.items + [value]), all);
  }

  /** The last step of delete_key: an entry of the cell under the cursor is taken out. */
  method RemoveLast(current: Cell, last: Option<Seg>, ghost at: Layout, ghost all: set<Cell>)
    returns (error: Option<Error>, ghost after: Layout)
    requires at.cell == current && Cells(at) <= all && Distinct(at) && Holds(at, Contents(all))
    modifies current
    ensures Arrived(Remove(Value(at), if last.Some? then [last.value] else []), error, at, after)
    ensures after.cell == current && Distinct(after) && Holds(after, Contents(all)) && Cells(after) <= Cells(at)
  {
    after := at;
    BelowCells(at, []);
    assert current.node == Contents(all)[current] == NodeOf(at);
    if last.None? {
      return Some(if current.node.LeafNode? then TypeError else IndexError), after;
    }
    var s := last.value;
    match current.node {
      case LeafNode(_) =>
        return Some(TypeError), after;
      case ListNode(items) =>
        if !s.Idx? {
          return Some(TypeError), after;
        }
        if s.index >= |items| {
          return Some(IndexError), after;
        }
        RemoveFits(at, s, Contents(all));
        NodesOfRemoved(at, s);
        after := Removed(at, s);
        SetNode(current, ListNode(items[..s.index] + items[s.index + 1..]), all);
      case DictNode(entries) =>
        if s !in entries {
          return Some(KeyError), after;
        }
        RemoveFits(at, s, Contents(all));
        NodesOfRemoved(at, s);
        after := Removed(at, s);
        SetNode(current, DictNode(entries - {s}), all);
    }
    error := None;
  }

  /** The last segment of a path, once the cursor has passed all others. */
  function Last(p: Path, i: nat): Option<Seg> {
    if i < |p| then Some(p[i]) else None
  }

  /** The cells hold the layout, and data is where it starts. */
  ghost predicate Rooted(l: Layout, data: Cell)
    reads Cells(l)
  {
    Distinct(l) && l.cell == data && Holds(l, Contents(Cells(l)))
  }

  lemma PlaceFound(l: Layout, p: Path, i: nat, at: Layout, m: Memory)
    requires Distinct(l) && Holds(l, m) && i <= |p| && Below(l, p[..i]) == Some(at)
    ensures Get(Value(l), p[..i]) == Some(Value(at)) && Cells(at) <= Cells(l) && Distinct(at) && Holds(at, m)
  {
    BelowCells(l, p[..i]);
    BelowHolds(l, p[..i], m);
  }

  lemma CursorFound(l: Layout, data: Cell, p: Path, i: nat, at: Layout)
    requires Rooted(l, data) && i < |p| && Below(l, p[..i]) == Some(at)
    ensures Get(Value(l), p[..i]) == Some(Value(at)) && at.cell.node == NodeOf(at)
    ensures Below(l, p[..i + 1]) == Sub(at, p[i])
  {
    PlaceFound(l, p, i, at, Contents(Cells(l)));
    BelowCells(at, []);
    assert Contents(Cells(l))[at.cell] == at.cell.node;
    BelowOneMore(l, p, i);
  }

  /** What the tests on the cell under the cursor mean for the whole update. */
  lemma UpdateCursor(l: Layout, data: Cell, p: Path, i: nat, at: Layout, v: Json, append: bool)
    requires Rooted(l, data) && i + 1 < |p| && Below(l, p[..i]) == Some(at)
    ensures at.cell.node == NodeOf(at) && Below(l, p[..i + 1]) == Sub(at, p[i])
    ensures Sub(at, p[i]).None? ==>
              Update(Value(l), p, v, append) ==
              Failed(if at.cell.node.ListNode? && p[i].Idx? then IndexError else KeyError)
  {
    CursorFound(l, data, p, i, at);
    UpdateFromBelow(Value(l), p, i, v, append);
  }

  lemma DeleteCursor(l: Layout, data: Cell, p: Path, i: nat, at: Layout)
    requires Rooted(l, data) && i + 1 < |p| && Below(l, p[..i]) == Some(at)
    ensures at.cell.node == NodeOf(at) && Below(l, p[..i + 1]) == Sub(at, p[i])
    ensures Sub(at, p[i]).None? ==>
              Delete(Value(l), p) == Failed(if at.cell.node.ListNode? then IndexError else KeyError)
  {
    CursorFound(l, data, p, i, at);
    DeleteFromBelow(Value(l), p, i);
  }

  lemma ReadyToChange(l: Layout, p: Path, i: nat, at: Layout, v: Layout)
    requires Distinct(l) && Holds(l, Contents(Cells(l))) && i <= |p| && Below(l, p[..i]) == Some(at)
    requires Distinct(v) && Holds(v, Contents(Cells(v))) && Cells(l) !! Cells(v)
    ensures var m := Contents(Cells(l) + Cells(v)); Holds(l, m) && Fits(at, v, m) && Cells(at) <= Cells(l)
    ensures Get(Value(l), p[..i]) == Some(Value(at))
  {
    var m := Contents(Cells(l) + Cells(v));
    StillHolds(l, Contents(Cells(l)), m);
    StillHolds(v, Contents(Cells(v)), m);
    PlaceFound(l, p, i, at, m);
  }

  lemma PlaceChanged(l: Layout, p: Path, k: Layout, before: Memory, after: Memory)
    requires Distinct(l) && Holds(l, before) && Below(l, p).Some?
    requires Distinct(k) && Holds(k, after) && k.cell == Below(l, p).value.cell
    requires Cells(k) !! Cells(l) - Cells(Below(l, p).value) && SameOutside(l, Below(l, p).value, before, after)
    ensures var l' := ReplaceAt(l, p, k);
            && Distinct(l') && Holds(l', after) && l'.cell == l.cell && Cells(l') <= Cells(l) + Cells(k)
            && Get(Value(l), p).Some? && Value(l') == Put(Value(l), p, Value(k))
  {
    Reseated(l, p, k, before, after);
    ReplacedValue(l, p, k);
  }

  lemma PlaceUnchanged(l: Layout, p: Path)
    requires Below(l, p).Some?
    ensures ReplaceAt(l, p, Below(l, p).value) == l
    decreases |p|
  {
  }

  /** After a change below the place at p, the cells hold the layout with that place changed. */
  lemma PlaceSettled(l: Layout, data: Cell, p: Path, k: Layout, extra: set<Cell>, all: set<Cell>, before: Memory)
    requires Distinct(l) && Holds(l, before) && l.cell == data && Below(l, p).Some? && extra !! Cells(l)
             && all == Cells(l) + extra
    requires var (at, after) := (Below(l, p).value, Contents(all));
             Distinct(k) && Holds(k, after) && k.cell == at.cell && Cells(k) <= Cells(at) + extra
               && SameOutside(l, at, before, after)
    ensures var l' := ReplaceAt(l, p, k);
            && Rooted(l', data) && Cells(l') <= Cells(l) + extra
            && Get(Value(l), p).Some? && Value(l') == Put(Value(l), p, Value(k)) && (k == Below(l, p).value ==> l' == l)
  {
    var after := Contents(all);
    BelowCells(l, p);
    PlaceChanged(l, p, k, before, after);
    var l' := ReplaceAt(l, p, k);
    StillHolds(l', after, Contents(Cells(l')));
    if k == Below(l, p).value {
      PlaceUnchanged(l, p);
    }
  }

  /** update_key behind its loop. */
  method ChangePlace(path: Path, i: nat, current: Cell, value: Cell, append: bool,
                     ghost l: Layout, ghost data: Cell, ghost at: Layout, ghost v: Layout)
    returns (error: Option<Error>, ghost after: Layout)
    requires Rooted(l, data) && Rooted(v, value) && Cells(l) !! Cells(v)
    requires (i == 0 || i < |path|) && i + 1 >= |path| && Below(l, path[..i]) == Some(at) && at.cell == current
    modifies Cells(l)
    ensures Rooted(after, data) && Cells(after) <= Cells(l) + Cells(v)
    ensures Arrived(Update(Value(l), path, Value(v), append), error, l, after)
  {
    hide Cells, Distinct, Holds;
    ghost var all := Cells(l) + Cells(v);
    ghost var before := Contents(all);
    ReadyToChange(l, path, i, at, v);
    UpdateFromBelow(Value(l), path, i, Value(v), append);
    assert path[i..] == if i < |path| then [path[i]] else [];
    ghost var k;
    error, k := AssignLast(current, Last(path, i), value, append, at, v, all);
    PlaceSettled(l, data, path[..i], k, Cells(v), all, before);
    after := ReplaceAt(l, path[..i], k);
  }

  /** delete_key behind its loop. */
  method RemovePlace(path: Path, i: nat, current: Cell, ghost l: Layout, ghost data: Cell, ghost at: Layout)
    returns (error: Option<Error>, ghost after: Layout)
    requires Rooted(l, data)
    requires (i == 0 || i < |path|) && i + 1 >= |path| && Below(l, path[..i]) == Some(at) && at.cell == current
    modifies Cells(l)
    ensures Rooted(after, data) && Cells(after) <= Cells(l)
    ensures Arrived(Delete(Value(l), path), error, l, after)
  {
    hide Cells, Distinct, Holds;
    ghost var all := Cells(l);
    ghost var before := Contents(all);
    PlaceFound(l, path, i, at, before);
    BelowCells(at, []);
    DeleteFromBelow(Value(l), path, i);
    assert path[i..] == if i < |path| then [path[i]] else [];
    ghost var k;
    error, k := RemoveLast(current, Last(path, i), at, all);
    PlaceSettled(l, data, path[..i], k, {}, all, before);
    after := ReplaceAt(l, path[..i], k);
  }

  /** The loop of update_key: the cursor moves down to the place of the last segment, unless a test fails. */
  method WalkForUpdate(data: Cell, path: Path, value: Cell, append: bool, ghost l: Layout, ghost v: Layout)
    returns (error: Option<Error>, current: Cell, i: nat, ghost at: Layout)
    requires Rooted(l, data) && Rooted(v, value)
    ensures Rooted(l, data) && Rooted(v, value)
    ensures error.Some? ==> Update(Value(l), path, Value(v), append) == Failed(error.value)
    ensures error.None? ==>
              (i == 0 || i < |path|) && i + 1 >= |path| && Below(l, path[..i]) == Some(at) && at.cell == current
  {
    error, current, i, at := None, data, 0, l;
    while i + 1 < |path|
      invariant i == 0 || i < |path|
      invariant Below(l, path[..i]) == Some(at) && at.cell == current && error.None?
      invariant Rooted(l, data) && Rooted(v, value)
      modifies {}
    {
      var key := path[i];
      UpdateCursor(l, data, path, i, at, Value(v), append);
      match current.node {
        case ListNode(items) =>
          if !key.Idx? {
            return Some(KeyError), current, i, at;
          }
          if key.index >= |items| {
            return Some(IndexError), current, i, at;
          }
          current := items[key.index];
        case DictNode(entries) =>
          if key !in entries {
            return Some(KeyError), current, i, at;
          }
          current := entries[key];
        case LeafNode(_) =>
          return Some(KeyError), current, i, at;
      }
      at := Sub(at, key).value;
      i := i + 1;
    }
  }

  /** The loop of delete_key, with its own tests. */
  method WalkForDelete(data: Cell, path: Path, ghost l: Layout)
    returns (error: Option<Error>, current: Cell, i: nat, ghost at: Layout)
    requires Rooted(l, data)
    ensures Rooted(l, data)
    ensures error.Some? ==> Delete(Value(l), path) == Failed(error.value)
    ensures error.None? ==>
              (i == 0 || i < |path|) && i + 1 >= |path| && Below(l, path[..i]) == Some(at) && at.cell == current
  {
    error, current, i, at := None, data, 0, l;
    while i + 1 < |path|
      invariant i == 0 || i < |path|
      invariant Below(l, path[..i]) == Some(at) && at.cell == current && error.None?
      invariant Rooted(l, data)
      modifies {}
    {
      var key := path[i];
      DeleteCursor(l, data, path, i, at);
      match current.node {
        case ListNode(items) =>
          if !key.Idx? || key.index >= |items| {
            return Some(IndexError), current, i, at;
          }
          current := items[key.index];
        case DictNode(entries) =>
          if key !in entries {
            return Some(KeyError), current, i, at;
          }
          current := entries[key];
        case LeafNode(_) =>
          return Some(KeyError), current, i, at;
      }
      at := Sub(at, key).value;
      i := i + 1;
    }
  }

  class Template {
    var data: Cell
    ghost var layout: Layout

    ghost predicate Valid()
      reads this, Cells(layout)
    {
      Rooted(layout, data)
    }

    /** The tree, as a value. */
    ghost function Tree(): Json
      reads this
    {
      Value(layout)
    }

    constructor (data: Cell, ghost layout: Layout)
      requires Rooted(layout, data)
      ensures Valid() && this.data == data && this.layout == layout
    {
      this.data := data;
      this.layout := layout;
    }

    method UpdateKey(path: Path, value: Cell, append: bool, ghost v: Layout) returns (error: Option<Error>)
      requires Valid() && Rooted(v, value) && Cells(layout) !! Cells(v)
      modifies `layout, Cells(layout)
      ensures Valid() && Cells(layout) <= old(Cells(layout)) + Cells(v)
      ensures match Update(old(Tree()), path, Value(v), append) {
                case Failed(e) => error == Some(e) && layout == old(layout)
                case Done(t) => error.None? && Tree() == t
              }
    {
      var current, i;
      ghost var at, after;
      error, current, i, at := WalkForUpdate(data, path, value, append, layout, v);
      if error.Some? {
        return;
      }
      error, after := ChangePlace(path, i, current, value, append, layout, data, at, v);
      layout := after;
    }

    method DeleteKey(path: Path) returns (error: Option<Error>)
      requires Valid()
      modifies `layout, Cells(layout)
      ensures Valid() && Cells(layout) <= old(Cells(layout))
      ensures match Delete(old(Tree()), path) {
                case Failed(e) => error == Some(e) && layout == old(layout)
                case Done(t) => error.None? && Tree() == t
              }
    {
      var current, i;
      ghost var at, after;
      error, current, i, at := WalkForDelete(data, path, layout);
      if error.Some? {
        return;
      }
      error, after := RemovePlace(path, i, current, layout, data, at);
      layout := after;
    }
  }
}
