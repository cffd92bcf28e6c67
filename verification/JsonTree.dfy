/**
 JSON trees as values, and what update_key and delete_key make of them: a path of keys and indices
 leads to the place that is assigned, appended to or removed.
 */
module JsonTree {
  import opened Strings

  /** A path segment, and a key of a dictionary: a string or a non-negative number. */
  datatype Seg = Key(name: string) | Idx(index: nat)

  datatype Json = Leaf(value: string) | Dict(entries: map<Seg, Json>) | List(items: seq<Json>)

  datatype Error = KeyError | IndexError | TypeError

  datatype Result<T> = Done(value: T) | Failed(error: Error)

  type Path = seq<Seg>

  function Child(t: Json, s: Seg): Option<Json> {
    match t
    case Leaf(_) => None
    case Dict(entries) => if s in entries then Some(entries[s]) else None
    case List(items) => if s.Idx? && s.index < |items| then Some(items[s.index]) else None
  }

  function With(t: Json, s: Seg, c: Json): Json
    requires Child(t, s).Some? || t.Dict?
  {
    match t
    case Dict(entries) => Dict(entries[s := c])
    case List(items) => List(items[s.index := c])
  }

  function Get(t: Json, p: Path): Option<Json> {
    if p == [] then Some(t) else if Child(t, p[0]).None? then None else Get(Child(t, p[0]).value, p[1..])
  }

  lemma GetOne(t: Json, s: Seg)
    ensures Get(t, [s]) == Child(t, s)
  {
    if Child(t, s).Some? {
      assert [s][1..] == [];
    }
  }

  lemma WithTwice(t: Json, s: Seg, c: Json, d: Json)
    requires Child(t, s).Some? || t.Dict?
    ensures Child(With(t, s, c), s) == Some(c) && With(With(t, s, c), s, d) == With(t, s, d)
  {
    if t.Dict? {
      assert t.entries[s := c][s := d] == t.entries[s := d];
    }
  }

  lemma WithSame(t: Json, s: Seg)
    requires Child(t, s).Some?
    ensures With(t, s, Child(t, s).value) == t
  {
    if t.Dict? {
      assert t.entries[s := t.entries[s]] == t.entries;
    }
  }

  lemma WithCommutes(t: Json, s: Seg, c: Json, r: Seg, d: Json)
    requires s != r && (Child(t, s).Some? || t.Dict?) && (Child(t, r).Some? || t.Dict?)
    ensures Child(With(t, s, c), r) == Child(t, r) && Child(With(t, r, d), s) == Child(t, s)
    ensures With(With(t, s, c), r, d) == With(With(t, r, d), s, c)
  {
    if t.Dict? {
      assert t.entries[s := c][r := d] == t.entries[r := d][s := c];
    }
  }

  // ---------- update_key ----------

  /** The tests made before a segment is followed. */
  function UpdateStep(t: Json, s: Seg): Result<Json> {
    if t.List? then
      if !s.Idx? then Failed(KeyError) else if s.index >= |t.items| then Failed(IndexError) else Done(t.items[s.index])
    else if t.Dict? && s in t.entries then Done(t.entries[s])
    else Failed(KeyError)
  }

  /** The last segment; with an empty path there is none, and only appending to a list does not look at it. */
  function Assign(t: Json, p: Path, v: Json, append: bool): Result<Json>
    requires |p| <= 1
  {
    if append && t.List? then Done(List(t.items + [v]))
    else if p == [] then Failed(IndexError)
    else match t {
      case Leaf(_) => Failed(TypeError)
      case List(items) =>
        if !p[0].Idx? then Failed(TypeError) else if p[0].index >= |items| then Failed(IndexError)
          else Done(With(t, p[0], v))
      case Dict(entries) =>
        if append && p[0] in entries && entries[p[0]].List? then Done(With(t, p[0], List(entries[p[0]].items + [v])))
        else Done(With(t, p[0], v))
    }
  }

  function Update(t: Json, p: Path, v: Json, append: bool): Result<Json>
    decreases |p|
  {
    if |p| <= 1 then Assign(t, p, v, append)
    else match UpdateStep(t, p[0]) {
      case Failed(e) => Failed(e)
      case Done(c) =>
        match Update(c, p[1..], v, append) {
          case Failed(e) => Failed(e)
          case Done(c') => Done(With(t, p[0], c'))
        }
    }
  }

  // ---------- delete_key ----------

  function DeleteStep(t: Json, s: Seg): Result<Json> {
    if t.List? then
      if !s.Idx? || s.index >= |t.items| then Failed(IndexError) else Done(t.items[s.index])
    else if t.Dict? && s in t.entries then Done(t.entries[s])
    else Failed(KeyError)
  }

  function Remove(t: Json, p: Path): Result<Json>
    requires |p| <= 1
  {
    if p == [] then Failed(if t.Leaf? then TypeError else IndexError)
    else match t {
      case Leaf(_) => Failed(TypeError)
      case List(items) =>
        if !p[0].Idx? then Failed(TypeError)
        else if p[0].index >= |items| then Failed(IndexError)
        else Done(List(items[..p[0].index] + items[p[0].index + 1..]))
      case Dict(entries) => if p[0] in entries then Done(Dict(entries - {p[0]})) else Failed(KeyError)
    }
  }

  function Delete(t: Json, p: Path): Result<Json>
    decreases |p|
  {
    if |p| <= 1 then Remove(t, p)
    else match DeleteStep(t, p[0]) {
      case Failed(e) => Failed(e)
      case Done(c) =>
        match Delete(c, p[1..]) {
          case Failed(e) => Failed(e)
          case Done(c') => Done(With(t, p[0], c'))
        }
    }
  }

  // ---------- when an update goes through ----------

  /** The place a path leads to, but for its last segment. */
  function Parent(t: Json, p: Path): Option<Json>
    requires p != []
  {
    Get(t, p[..|p|-1])
  }

  /** A non-appending update succeeds exactly when the parent is a dictionary, or a list that has the index. */
  lemma {:induction false} UpdateSucceedsIff(t: Json, p: Path, v: Json)
    ensures Update(t, p, v, false).Done? <==>
              p != [] && Parent(t, p).Some? && (Parent(t, p).value.Dict? || Child(Parent(t, p).value, p[|p|-1]).Some?)
    decreases |p|
  {
    if |p| > 1 {
      assert p[..|p|-1][1..] == p[1..][..|p|-2] && p[..|p|-1][0] == p[0];
      if UpdateStep(t, p[0]).Done? {
        UpdateSucceedsIff(UpdateStep(t, p[0]).value, p[1..], v);
      }
    }
  }

  // ---------- following a path and then changing what is there ----------

  /** The tree with the subtree at the path replaced. */
  function Put(t: Json, p: Path, c: Json): Json
    requires Get(t, p).Some?
    decreases |p|
  {
    if p == [] then c else With(t, p[0], Put(Child(t, p[0]).value, p[1..], c))
  }

  function PutResult(t: Json, p: Path, r: Result<Json>): Result<Json>
    requires Get(t, p).Some?
  {
    match r
    case Failed(e) => Failed(e)
    case Done(c) => Done(Put(t, p, c))
  }

  /** Walking down the first segments and updating there is updating from the root. */
  lemma {:induction false} UpdateFromBelow(t: Json, p: Path, i: nat, v: Json, append: bool)
    requires i < |p| || i == 0
    requires Get(t, p[..i]).Some?
    ensures Update(t, p, v, append) == PutResult(t, p[..i], Update(Get(t, p[..i]).value, p[i..], v, append))
    decreases i
  {
    if i > 0 {
      assert p[..i][1..] == p[1..][..i - 1] && p[..i][0] == p[0] && p[1..][i - 1..] == p[i..];
      UpdateFromBelow(Child(t, p[0]).value, p[1..], i - 1, v, append);
    } else {
      assert p[..0] == [] && p[0..] == p;
    }
  }

  lemma {:induction false} DeleteFromBelow(t: Json, p: Path, i: nat)
    requires i < |p| || i == 0
    requires Get(t, p[..i]).Some?
    ensures Delete(t, p) == PutResult(t, p[..i], Delete(Get(t, p[..i]).value, p[i..]))
    decreases i
  {
    if i > 0 {
      assert p[..i][1..] == p[1..][..i - 1] && p[..i][0] == p[0] && p[1..][i - 1..] == p[i..];
      DeleteFromBelow(Child(t, p[0]).value, p[1..], i - 1);
    } else {
      assert p[..0] == [] && p[0..] == p;
    }
  }

  // ---------- lens laws ----------

  lemma {:induction false} GetAfterUpdate(t: Json, p: Path, v: Json)
    requires Update(t, p, v, false).Done?
    ensures Get(Update(t, p, v, false).value, p) == Some(v)
    decreases |p|
  {
    if |p| > 1 {
      GetAfterUpdate(UpdateStep(t, p[0]).value, p[1..], v);
    } else {
      assert p[1..] == [];
    }
  }

  /** The last update wins: what the first one wrote leaves no trace. */
  lemma {:induction false} LastUpdateWins(t: Json, p: Path, v: Json, w: Json)
    requires Update(t, p, v, false).Done?
    ensures Update(Update(t, p, v, false).value, p, w, false) == Update(t, p, w, false)
    decreases |p|
  {
    if |p| > 1 {
      var c := UpdateStep(t, p[0]).value;
      LastUpdateWins(c, p[1..], v, w);
      var c' := Update(c, p[1..], v, false).value;
      WithTwice(t, p[0], c', if Update(c, p[1..], w, false).Done? then Update(c, p[1..], w, false).value else c);
    } else {
      WithTwice(t, p[0], v, w);
    }
  }

  /** Neither path leads through the other's end. */
  predicate Apart(p: Path, q: Path) {
    !(p <= q) && !(q <= p)
  }

  lemma ApartBelow(p: Path, q: Path)
    requires Apart(p, q) && p[0] == q[0]
    ensures Apart(p[1..], q[1..]) && |p| > 1 && |q| > 1
  {
    assert p == [p[0]] + p[1..] && q == [q[0]] + q[1..];
  }

  /** What a successful update puts below the first segment. */
  function NewChild(t: Json, p: Path, v: Json): Json
    requires p != []
             && (|p| > 1 ==> UpdateStep(t, p[0]).Done? && Update(UpdateStep(t, p[0]).value, p[1..], v, false).Done?)
  {
    if |p| == 1 then v else Update(UpdateStep(t, p[0]).value, p[1..], v, false).value
  }

  lemma UpdateWithNewChild(t: Json, p: Path, v: Json)
    requires p != []
             && (|p| > 1 ==> UpdateStep(t, p[0]).Done? && Update(UpdateStep(t, p[0]).value, p[1..], v, false).Done?)
    requires Child(t, p[0]).Some? || t.Dict?
    ensures Update(t, p, v, false) == Done(With(t, p[0], NewChild(t, p, v)))
  {
  }

  /** Updates at places apart from each other commute: the order leaves no trace. */
  lemma {:induction false} UpdatesCommute(t: Json, p: Path, v: Json, q: Path, w: Json)
    requires Apart(p, q)
    requires Update(t, p, v, false).Done? && Update(t, q, w, false).Done?
    ensures Update(Update(t, p, v, false).value, q, w, false).Done?
    ensures Update(Update(t, p, v, false).value, q, w, false) == Update(Update(t, q, w, false).value, p, v, false)
    decreases |p|
  {
    if p[0] == q[0] {
      ApartBelow(p, q);
      var c := UpdateStep(t, p[0]).value;
      UpdatesCommute(c, p[1..], v, q[1..], w);
      var c1, c2 := Update(c, p[1..], v, false).value, Update(c, q[1..], w, false).value;
      WithTwice(t, p[0], c1, Update(c1, q[1..], w, false).value);
      WithTwice(t, p[0], c2, Update(c2, p[1..], v, false).value);
    } else {
      WithCommutes(t, p[0], NewChild(t, p, v), q[0], NewChild(t, q, w));
      UpdateWithNewChild(t, p, v);
      UpdateWithNewChild(t, q, w);
      UpdateWithNewChild(With(t, p[0], NewChild(t, p, v)), q, w);
      UpdateWithNewChild(With(t, q[0], NewChild(t, q, w)), p, v);
    }
  }

  /**
   Where an update writes: appending goes to the end of the list that is found at the path, or above its last
   segment.
   */
  function Place(t: Json, p: Path, append: bool): Path
    decreases |p|
  {
    if |p| > 1 then if Child(t, p[0]).None? then p else [p[0]] + Place(Child(t, p[0]).value, p[1..], append)
    else if append && t.List? then [Idx(|t.items|)]
    else if append && p != [] && t.Dict? && p[0] in t.entries && t.entries[p[0]].List?
      then [p[0], Idx(|t.entries[p[0]].items|)]
    else p
  }

  /** Whatever is apart from the place written to stays as it was, appending or not. */
  lemma {:induction false} UpdateFrame(t: Json, p: Path, v: Json, append: bool, q: Path)
    requires Update(t, p, v, append).Done? && Apart(Place(t, p, append), q)
    ensures Get(Update(t, p, v, append).value, q) == Get(t, q)
    decreases |p|
  {
    if |p| > 1 {
      if q[0] == p[0] {
        ApartBelow(Place(t, p, append), q);
        UpdateFrame(UpdateStep(t, p[0]).value, p[1..], v, append, q[1..]);
      }
    } else if q[0] == Place(t, p, append)[0] {
      ApartBelow(Place(t, p, append), q);
    }
  }

  /** An update writes the new value at its place, and an append leaves every other item of its list where it was. */
  lemma {:induction false} UpdateWritesItsPlace(t: Json, p: Path, v: Json, append: bool)
    requires Update(t, p, v, append).Done?
    ensures Get(Update(t, p, v, append).value, Place(t, p, append)) == Some(v)
    decreases |p|
  {
    var place := Place(t, p, append);
    if |p| > 1 {
      var c := UpdateStep(t, p[0]).value;
      UpdateWritesItsPlace(c, p[1..], v, append);
      assert place[0] == p[0] && place[1..] == Place(c, p[1..], append);
      WithTwice(t, p[0], Update(c, p[1..], v, append).value, c);
    } else if |place| == 2 {
      var list := t.entries[p[0]];
      assert place[1..] == [Idx(|list.items|)];
      GetOne(List(list.items + [v]), Idx(|list.items|));
    } else {
      assert place == [place[0]];
      GetOne(Update(t, p, v, append).value, place[0]);
    }
  }

  /** Appending to an existing list extends it by one item at its end. */
  lemma {:induction false} AppendExtends(t: Json, p: Path, v: Json)
    requires p != [] && Get(t, p).Some? && Get(t, p).value.List? && Parent(t, p).Some? && Parent(t, p).value.Dict?
    ensures var r := Update(t, p, v, true); r.Done? && Get(r.value, p) == Some(List(Get(t, p).value.items + [v]))
    decreases |p|
  {
    if |p| > 1 {
      assert p[..|p|-1][1..] == p[1..][..|p|-2] && p[..|p|-1][0] == p[0];
      AppendExtends(Child(t, p[0]).value, p[1..], v);
    } else {
      assert p[1..] == [] && p[..0] == [];
    }
  }

  /** Deleting what was inserted under a fresh key gives back the very same tree. */
  lemma {:induction false} DeleteUndoesInsert(t: Json, p: Path, v: Json)
    requires Update(t, p, v, false).Done? && Get(t, p).None?
    ensures Delete(Update(t, p, v, false).value, p) == Done(t)
    decreases |p|
  {
    if |p| > 1 {
      var c := UpdateStep(t, p[0]).value;
      DeleteUndoesInsert(c, p[1..], v);
      WithTwice(t, p[0], Update(c, p[1..], v, false).value, c);
      WithSame(t, p[0]);
    } else {
      assert p == [p[0]];
      GetOne(t, p[0]);
      assert t.entries[p[0] := v] - {p[0]} == t.entries;
    }
  }

  /** A deletion succeeds exactly when there is something at the path, which must not be empty. */
  lemma {:induction false} DeleteSucceedsIff(t: Json, p: Path)
    ensures Delete(t, p).Done? <==> p != [] && Get(t, p).Some?
    decreases |p|
  {
    if |p| > 1 {
      if DeleteStep(t, p[0]).Done? {
        DeleteSucceedsIff(DeleteStep(t, p[0]).value, p[1..]);
      }
    } else if |p| == 1 {
      assert p == [p[0]];
      GetOne(t, p[0]);
    }
  }

  function WithoutItem(items: seq<Json>, i: nat): seq<Json>
    requires i < |items|
  {
    items[..i] + items[i + 1..]
  }

  /** It takes away that one entry of its parent; in a list the later items move down by one. */
  lemma {:induction false} DeleteRemovesOneEntry(t: Json, p: Path)
    requires Delete(t, p).Done?
    ensures p != [] && Parent(t, p).Some?
    ensures var (parent, last) := (Parent(t, p).value, p[|p|-1]);
            Get(Delete(t, p).value, p[..|p|-1]) ==
            (match parent
             case Dict(entries) => Some(Dict(entries - {last}))
             case List(items) => if last.Idx? && last.index < |items|
               then Some(List(WithoutItem(items, last.index))) else None
             case Leaf(_) => None)
    decreases |p|
  {
    if |p| > 1 {
      assert p[..|p|-1][1..] == p[1..][..|p|-2] && p[..|p|-1][0] == p[0];
      var c := DeleteStep(t, p[0]).value;
      DeleteRemovesOneEntry(c, p[1..]);
      WithTwice(t, p[0], Delete(c, p[1..]).value, c);
    }
  }

  /** And it leaves everything that is apart from its parent alone. */
  lemma {:induction false} DeleteFrame(t: Json, p: Path, q: Path)
    requires Delete(t, p).Done? && p != [] && Apart(p[..|p|-1], q)
    ensures Get(Delete(t, p).value, q) == Get(t, q)
    decreases |p|
  {
    if |p| > 1 {
      if q[0] == p[0] {
        ApartBelow(p[..|p|-1], q);
        assert p[..|p|-1][1..] == p[1..][..|p|-2];
        DeleteFrame(DeleteStep(t, p[0]).value, p[1..], q[1..]);
      }
    }
  }
}
