/**
 Writing several modules to a datastore at once: the recursive call marks its operation with a '!', so
 that its edits are only staged and one commit follows at the end.
 */
module SetData {
  import opened Strings

  datatype Data = Text(value: string) | Tree(entries: seq<(string, Data)>) | OtherType

  datatype Edit = SetItem(path: string, value: string) | EditBatch(moduleName: string, data: Data, operation: string)

  datatype Session = Session(staged: seq<Edit>, commits: seq<seq<Edit>>, calls: nat)

  /** What a call stages, in order, and whether it then raises because its data cannot be iterated or looked up. */
  datatype Plan = Plan(edits: seq<Edit>, raises: bool)

  predicate Marked(operation: string) {
    StartsWith(operation, "!")
  }

  function Unmarked(operation: string): string {
    if Marked(operation) then operation[1..] else operation
  }

  function WithoutLastSlash(path: string): string {
    if path != "" && path[|path|-1] == '/' then path[..|path|-1] else path
  }

  function WithoutFirstSlash(path: string): string {
    if path != "" && path[0] == '/' then path[1..] else path
  }

  function PlanOf(path: string, data: Data, operation: string): Plan
    decreases data, 1
  {
    if path == "" then
      match data {
        case Tree(entries) => PlanOfAll(data, |entries|, "!" + operation)
        case Text(value) => Plan([], value != "")
        case OtherType => Plan([], true)
      }
    else
      match data {
        case Text(value) => Plan([SetItem(WithoutLastSlash(path), value)], false)
        case Tree(_) => Plan([EditBatch(WithoutFirstSlash(WithoutLastSlash(path)), data, Unmarked(operation))], false)
        case OtherType => Plan([], false)
      }
  }

  function PlanOfAll(data: Data, n: nat, operation: string): Plan
    requires data.Tree? && n <= |data.entries|
    decreases data, 0, n
  {
    if n == 0 then Plan([], false)
    else
      var before := PlanOfAll(data, n - 1, operation);
      if before.raises then before
      else
        var entry := data.entries[n - 1];
        assert entry.1 < data by { assert entry in data.entries; }
        var next := PlanOf(entry.0, entry.1, operation);
        Plan(before.edits + next.edits, next.raises)
  }

  /**
   A call for one module stages one edit: the slash at the end of its path is dropped, for a tree the one in front
   too, and the mark of a recursive call does not show.
   */
  lemma OneModuleOneEdit(name: string, data: Data, operation: string, first: bool, last: bool, marked: bool)
    requires name != "" && name[0] != '/' && name[|name|-1] != '/' && !Marked(operation)
    ensures var path := (if first then "/" else "") + name + (if last then "/" else "");
            PlanOf(path, data, if marked then "!" + operation else operation) ==
            match data {
              case Text(value) => Plan([SetItem((if first then "/" else "") + name, value)], false)
              case Tree(_) => Plan([EditBatch(name, data, operation)], false)
              case OtherType => Plan([], false)
            }
  {
    hide WithoutFirstSlash, WithoutLastSlash, Marked, Unmarked;
    SlashesGo(name, first, last);
    MarkGoes(operation);
  }

  lemma SlashesGo(name: string, first: bool, last: bool)
    requires name != "" && name[0] != '/' && name[|name|-1] != '/'
    ensures var start := (if first then "/" else "") + name;
            WithoutLastSlash(start + (if last then "/" else "")) == start && WithoutFirstSlash(start) == name
  {
    var start := (if first then "/" else "") + name;
    assert start[|start|-1] == name[|name|-1] && ("/" + name)[1..] == name;
    assert (start + "/")[..|start|] == start && start + "" == start;
  }

  lemma MarkGoes(operation: string)
    requires !Marked(operation)
    ensures Unmarked("!" + operation) == operation == Unmarked(operation) && Marked("!" + operation)
  {
    assert ("!" + operation)[1..] == operation;
  }

  // ---------- calls on a datastore session; each may raise ----------

  function Stage(s: Session, edits: seq<Edit>, fails: nat -> bool): (bool, Session)
    decreases |edits|
  {
    if edits == [] then (true, s)
    else if fails(s.calls) then (false, s.(calls := s.calls + 1))
    else Stage(s.(staged := s.staged + [edits[0]], calls := s.calls + 1), edits[1..], fails)
  }

  /** apply_changes: what is staged becomes one commit, or stays staged. */
  function Commit(s: Session, fails: nat -> bool): (bool, Session) {
    if fails(s.calls) then (false, s.(calls := s.calls + 1))
    else (true, Session([], s.commits + [s.staged], s.calls + 1))
  }

  function Perform(s: Session, plan: Plan, marked: bool, fails: nat -> bool): (bool, Session) {
    var (ok, staged) := Stage(s, plan.edits, fails);
    if !ok || plan.raises then (false, staged) else if marked then (true, staged) else Commit(staged, fails)
  }

  lemma {:induction false} StageInTwo(s: Session, a: seq<Edit>, b: seq<Edit>, fails: nat -> bool)
    ensures Stage(s, a + b, fails) == if Stage(s, a, fails).0 then Stage(Stage(s, a, fails).1, b, fails)
            else Stage(s, a, fails)
    decreases |a|
  {
    if a == [] {
      assert a + b == b;
    } else if !fails(s.calls) {
      assert (a + b)[1..] == a[1..] + b;
      StageInTwo(s.(staged := s.staged + [a[0]], calls := s.calls + 1), a[1..], b, fails);
    }
  }

  class Store {
    var staged: seq<Edit>
    var commits: seq<seq<Edit>>
    var calls: nat

    constructor ()
      ensures State() == Session([], [], 0)
    {
      staged, commits, calls := [], [], 0;
    }

    function State(): Session
      reads this
    {
      Session(staged, commits, calls)
    }

    method AddEdit(e: Edit, fails: nat -> bool) returns (ok: bool)
      modifies this
      ensures (ok, State()) == Stage(old(State()), [e], fails)
    {
      calls := calls + 1;
      if fails(calls - 1) {
        return false;
      }
      staged := staged + [e];
      ok := true;
    }

    method ApplyChanges(fails: nat -> bool) returns (ok: bool)
      modifies this
      ensures (ok, State()) == Commit(old(State()), fails)
    {
      calls := calls + 1;
      if fails(calls - 1) {
        return false;
      }
      commits, staged := commits + [staged], [];
      ok := true;
    }
  }

  datatype Datastore = Running | Operational

  class Netconf {
    const running: Store
    const operational: Store

    constructor ()
      ensures fresh(running) && fresh(operational) && running != operational
      ensures running.State() == Session([], [], 0) && operational.State() == Session([], [], 0)
    {
      running := new Store();
      operational := new Store();
    }

    function Of(d: Datastore): Store {
      if d.Running? then running else operational
    }

    /** set_data; an absent path is the empty one. False stands for an exception. */
    method SetData(d: Datastore, path: string, data: Data, operation: string, fails: nat -> bool) returns (ok: bool)
      modifies if d.Running? then running else operational
      ensures var store := if d.Running? then running else operational;
              (ok, store.State())
              == Perform(old(store.State()), PlanOf(path, data, operation), Marked(operation), fails)
      decreases data
    {
      var store := Of(d);
      if path == "" {
        match data {
          case Tree(entries) =>
            for i := 0 to |entries|
              invariant (true, store.State())
                        == Stage(old(store.State()), PlanOfAll(data, i, "!" + operation).edits, fails)
              invariant !PlanOfAll(data, i, "!" + operation).raises
            {
              assert entries[i] in entries;
              StageInTwo(old(store.State()), PlanOfAll(data, i, "!" + operation).edits,
                         PlanOf(entries[i].0, entries[i].1, "!" + operation).edits, fails);
              var done := SetData(d, entries[i].0, entries[i].1, "!" + operation, fails);
              if !done {
                PlanFails(data, i, operation, old(store.State()), fails);
                return false;
              }
            }
          case Text(value) =>
            if value != "" {
              return false;
            }
          case OtherType =>
            return false;
        }
      } else {
        var trimmed := WithoutLastSlash(path);
        match data {
          case Text(value) =>
            var done := store.AddEdit(SetItem(trimmed, value), fails);
            if !done {
              return false;
            }
          case Tree(_) =>
            var done := store.AddEdit(EditBatch(WithoutFirstSlash(trimmed), data, Unmarked(operation)), fails);
            if !done {
              return false;
            }
          case OtherType =>
        }
      }
      if !Marked(operation) {
        ok := store.ApplyChanges(fails);
      } else {
        ok := true;
      }
    }
  }

  /** Once an entry fails, the whole plan fails in the same state: the later entries are never reached. */
  lemma PlanFails(data: Data, i: nat, operation: string, s: Session, fails: nat -> bool)
    requires data.Tree? && i < |data.entries|
    requires var (before, next) := (PlanOfAll(data, i, "!" + operation), PlanOfAll(data, i + 1, "!" + operation));
             !before.raises && !Perform(s, next, true, fails).0
    ensures Perform(s, PlanOfAll(data, |data.entries|, "!" + operation), Marked(operation), fails) ==
            Perform(s, PlanOfAll(data, i + 1, "!" + operation), true, fails)
  {
    PlanFailsUpTo(data, i + 1, |data.entries|, "!" + operation, s, fails);
  }

  lemma {:induction false} PlanFailsUpTo(data: Data, i: nat, n: nat, operation: string, s: Session, fails: nat -> bool)
    requires data.Tree? && i <= n <= |data.entries|
    requires !Perform(s, PlanOfAll(data, i, operation), true, fails).0
    ensures Perform(s, PlanOfAll(data, n, operation), true, fails)
            == Perform(s, PlanOfAll(data, i, operation), true, fails)
  {
    if i < n {
      PlanFailsUpTo(data, i, n - 1, operation, s, fails);
      var before := PlanOfAll(data, n - 1, operation);
      if !before.raises {
        StageInTwo(s, before.edits, PlanOf(data.entries[n - 1].0, data.entries[n - 1].1, operation).edits, fails);
      }
    }
  }

  // ---------- several modules, one commit ----------

  /** The edit of one module, with the operation the caller asked for. */
  function ModuleEdit(entry: (string, Data), operation: string): seq<Edit> {
    var (path, data) := entry;
    match data
    case Text(value) => [SetItem(WithoutLastSlash(path), value)]
    case Tree(_) => [EditBatch(WithoutFirstSlash(WithoutLastSlash(path)), data, operation)]
    case OtherType => []
  }

  function ModuleEdits(entries: seq<(string, Data)>, operation: string): seq<Edit> {
    if entries == [] then []
      else ModuleEdits(entries[..|entries|-1], operation) + ModuleEdit(entries[|entries|-1], operation)
  }

  lemma {:induction false} PlanIsModuleEdits(data: Data, n: nat, operation: string)
    requires data.Tree? && n <= |data.entries| && forall e :: e in data.entries ==> e.0 != ""
    ensures PlanOfAll(data, n, "!" + operation) == Plan(ModuleEdits(data.entries[..n], operation), false)
  {
    if n > 0 {
      PlanIsModuleEdits(data, n - 1, operation);
      assert data.entries[n - 1] in data.entries && data.entries[..n][..n - 1] == data.entries[..n - 1];
      assert ("!" + operation)[1..] == operation;
    } else {
      assert data.entries[..0] == [];
    }
  }

  /** No call from one number up to another raises. */
  ghost predicate Fine(fails: nat -> bool, from: nat, to: nat) {
    forall c: nat :: from <= c < to ==> !fails(c)
  }

  /** How many of the edits are staged before one raises. */
  function StagedOf(s: Session, edits: seq<Edit>, fails: nat -> bool): (k: nat)
    ensures k <= |edits|
    decreases |edits|
  {
    if edits == [] || fails(s.calls) then 0
    else 1 + StagedOf(s.(staged := s.staged + [edits[0]], calls := s.calls + 1), edits[1..], fails)
  }

  lemma StagedShift(before: seq<Edit>, edits: seq<Edit>, k: nat)
    requires k < |edits|
    ensures (before + [edits[0]]) + edits[1..][..k] == before + edits[..k + 1]
  {
    assert [edits[0]] + edits[1..][..k] == edits[..k + 1];
  }

  lemma {:induction false} StageAdds(s: Session, edits: seq<Edit>, fails: nat -> bool)
    ensures var ((ok, s'), k) := (Stage(s, edits, fails), StagedOf(s, edits, fails));
            && k <= |edits| && s'.staged == s.staged + edits[..k] && s'.commits == s.commits
            && (ok <==> k == |edits|) && (ok <==> Fine(fails, s.calls, s.calls + |edits|))
               && (ok ==> s'.calls == s.calls + |edits|)
    decreases |edits|
  {
    if edits != [] && !fails(s.calls) {
      var next := s.(staged := s.staged + [edits[0]], calls := s.calls + 1);
      StageAdds(next, edits[1..], fails);
      var k := StagedOf(next, edits[1..], fails);
      StagedShift(s.staged, edits, k);
      assert Fine(fails, s.calls + 1, s.calls + |edits|) <==> Fine(fails, s.calls, s.calls + |edits|);
    } else {
      assert s.staged + edits[..0] == s.staged;
    }
  }

  lemma FineOneMore(fails: nat -> bool, from: nat, to: nat)
    requires from <= to
    ensures Fine(fails, from, to + 1) <==> Fine(fails, from, to) && !fails(to)
  {
  }

  /** Either everything is committed, or nothing is and some of the edits are staged. */
  predicate CommittedOrStaged(s: Session, s': Session, edits: seq<Edit>, ok: bool, k: nat)
    requires k <= |edits|
  {
    if ok then s'.commits == s.commits + [s.staged + edits] && s'.staged == []
    else s'.commits == s.commits && s'.staged == s.staged + edits[..k]
  }

  lemma CommitOfStaged(s: Session, staged: Session, edits: seq<Edit>, fails: nat -> bool)
    requires staged.staged == s.staged + edits && staged.commits == s.commits
    ensures var r := Commit(staged, fails);
            (r.0 <==> !fails(staged.calls)) && CommittedOrStaged(s, r.1, edits, r.0, |edits|)
  {
    assert edits[..|edits|] == edits;
  }

  lemma PerformIs(s: Session, edits: seq<Edit>, fails: nat -> bool)
    ensures var staged := Stage(s, edits, fails);
            Perform(s, Plan(edits, false), false, fails) == if staged.0 then Commit(staged.1, fails) else staged
  {
  }

  lemma OneCommit(s: Session, edits: seq<Edit>, fails: nat -> bool)
    ensures var r := Perform(s, Plan(edits, false), false, fails);
            && (r.0 <==> Fine(fails, s.calls, s.calls + |edits| + 1))
            && CommittedOrStaged(s, r.1, edits, r.0, StagedOf(s, edits, fails))
  {
    hide Perform, Stage, StagedOf, Fine, Commit, CommittedOrStaged;
    StageAdds(s, edits, fails);
    FineOneMore(fails, s.calls, s.calls + |edits|);
    PerformIs(s, edits, fails);
    var (ok, staged) := Stage(s, edits, fails);
    var k := StagedOf(s, edits, fails);
    if ok {
      TakeAll(edits);
      CommitOfStaged(s, staged, edits, fails);
    } else {
      PartStaged(s, staged, edits, k);
    }
  }

  lemma TakeAll(edits: seq<Edit>)
    ensures edits[..|edits|] == edits
  {
  }

  lemma PartStaged(s: Session, staged: Session, edits: seq<Edit>, k: nat)
    requires k <= |edits| && staged.staged == s.staged + edits[..k] && staged.commits == s.commits
    ensures CommittedOrStaged(s, staged, edits, false, k)
  {
  }

  /**
   Setting several modules either makes one commit, of what was staged before and all the modules' edits
   with the operation asked for, or none at all; it succeeds exactly when none of its calls raises. After
   an exception the edits made so far stay staged.
   */
  lemma SeveralModulesOneCommit(s: Session, data: Data, operation: string, fails: nat -> bool)
    requires data.Tree? && !Marked(operation) && forall e :: e in data.entries ==> e.0 != ""
    ensures var edits := ModuleEdits(data.entries, operation);
            var r := Perform(s, PlanOf("", data, operation), Marked(operation), fails);
            && (r.0 <==> Fine(fails, s.calls, s.calls + |edits| + 1))
            && CommittedOrStaged(s, r.1, edits, r.0, StagedOf(s, edits, fails))
  {
    PlanIsModuleEdits(data, |data.entries|, operation);
    assert data.entries[..|data.entries|] == data.entries;
    OneCommit(s, ModuleEdits(data.entries, operation), fails);
  }

  /** What an interrupted call left behind is committed together with the edits of the next call that succeeds. */
  lemma LeftoversGoWithTheNextCommit(s: Session, first: Data, second: Data, operation: string, fails: nat -> bool)
    requires first.Tree? && second.Tree? && !Marked(operation)
    requires (forall e :: e in first.entries ==> e.0 != "") && (forall e :: e in second.entries ==> e.0 != "")
    requires var (ok, s') := Perform(s, PlanOf("", first, operation), false, fails);
             !ok && Perform(s', PlanOf("", second, operation), false, fails).0
    ensures var s' := Perform(s, PlanOf("", first, operation), false, fails).1;
            var (before, after) := (ModuleEdits(first.entries, operation), ModuleEdits(second.entries, operation));
            Perform(s', PlanOf("", second, operation), false, fails).1.commits ==
            s.commits + [s.staged + before[..StagedOf(s, before, fails)] + after]
  {
    SeveralModulesOneCommit(s, first, operation, fails);
    SeveralModulesOneCommit(Perform(s, PlanOf("", first, operation), false, fails).1, second, operation, fails);
  }
}
