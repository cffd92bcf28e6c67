/**
 Choosing the files that are loaded into the datastores at boot: the pattern their names must match, and
 the order in which they are loaded.
 */
module DatastoreFiles {
  import opened Strings

  /** The groups of a match. */
  datatype Parse = Parse(prefix: Option<string>, moduleName: string, datastore: string, extension: string)

  const SCHEMA_MOUNT := "ietf-yang-schema-mount"

  const DATASTORES := ["running", "operational"]

  // ---------- the pattern ----------

  function Ending(datastore: string, extension: string): string {
    "-" + datastore + "." + extension
  }

  function Show(p: Parse): string {
    (if p.prefix.Some? then p.prefix.value + "-" else "") + (p.moduleName + Ending(p.datastore, p.extension))
  }

  /** The strings each group may match. */
  predicate Allowed(p: Parse, extensions: seq<string>) {
    && (p.prefix.Some? ==> p.prefix.value != "" && Digits(p.prefix.value))
    && p.moduleName != "" && p.datastore in DATASTORES && p.extension in extensions
  }

  /** The alternatives of the two last groups, tried in their order. */
  function MatchExtension(u: string, datastore: string, extensions: seq<string>): Option<string> {
    if extensions == [] then None
    else if u == Ending(datastore, extensions[0]) then Some(extensions[0])
    else MatchExtension(u, datastore, extensions[1..])
  }

  function MatchEnding(u: string, datastores: seq<string>, extensions: seq<string>): Option<(string, string)> {
    if datastores == [] then None
    else match MatchExtension(u, datastores[0], extensions) {
      case Some(extension) => Some((datastores[0], extension))
      case None => MatchEnding(u, datastores[1..], extensions)
    }
  }

  /** The greedy module group: the longest first, then shorter and shorter. */
  function MatchModule(t: string, n: nat, extensions: seq<string>): Option<(string, string, string)>
    requires n <= |t|
  {
    if n == 0 then None
    else match MatchEnding(t[n..], DATASTORES, extensions) {
      case Some((datastore, extension)) => Some((t[..n], datastore, extension))
      case None => MatchModule(t, n - 1, extensions)
    }
  }

  function LeadingDigits(s: string): (n: nat)
    ensures n <= |s| && Digits(s[..n]) && (n < |s| ==> !IsDigit(s[n]))
  {
    if s == "" || !IsDigit(s[0]) then 0
    else
      var n := LeadingDigits(s[1..]);
      assert s[..n + 1] == [s[0]] + s[1..][..n];
      n + 1
  }

  /** The greedy digits of the optional prefix, fewer and fewer of them, each followed by a dash. */
  function MatchPrefix(s: string, n: nat, extensions: seq<string>): Option<Parse>
    requires n <= |s|
  {
    if n == 0 then None
    else if n < |s| && s[n] == '-' && MatchModule(s[n + 1..], |s| - n - 1, extensions).Some? then
      var (moduleName, datastore, extension) := MatchModule(s[n + 1..], |s| - n - 1, extensions).value;
      Some(Parse(Some(s[..n]), moduleName, datastore, extension))
    else MatchPrefix(s, n - 1, extensions)
  }

  /** The whole pattern: with the prefix if that leads to a match, otherwise without. */
  function Match(s: string, extensions: seq<string>): Option<Parse> {
    match MatchPrefix(s, LeadingDigits(s), extensions)
    case Some(p) => Some(p)
    case None =>
      match MatchModule(s, |s|, extensions)
      case None => None
      case Some((moduleName, datastore, extension)) => Some(Parse(None, moduleName, datastore, extension))
  }

  // ---------- the endings ----------

  lemma EndingDetermines(d: string, e: string, d': string, e': string)
    requires d in DATASTORES && d' in DATASTORES && Ending(d, e) == Ending(d', e')
    ensures d == d' && e == e'
  {
    assert "running"[0] == 'r' && "operational"[0] == 'o';
    assert d[0] == Ending(d, e)[1] && d'[0] == Ending(d', e')[1];
    assert d == d';
    assert Ending(d, e)[|d| + 2..] == e && Ending(d', e')[|d'| + 2..] == e';
  }

  lemma {:induction false} ExtensionFound(u: string, datastore: string, extensions: seq<string>)
    ensures match MatchExtension(u, datastore, extensions) {
              case Some(e) => e in extensions && u == Ending(datastore, e)
              case None => forall e :: e in extensions ==> u != Ending(datastore, e)
            }
  {
    if extensions != [] {
      assert forall e :: e in extensions <==> e == extensions[0] || e in extensions[1..];
      ExtensionFound(u, datastore, extensions[1..]);
    }
  }

  lemma {:induction false} EndingFound(u: string, datastores: seq<string>, extensions: seq<string>)
    ensures match MatchEnding(u, datastores, extensions) {
              case Some((d, e)) => d in datastores && e in extensions && u == Ending(d, e)
              case None => forall d, e :: d in datastores && e in extensions ==> u != Ending(d, e)
            }
  {
    if datastores != [] {
      assert forall d :: d in datastores <==> d == datastores[0] || d in datastores[1..];
      ExtensionFound(u, datastores[0], extensions);
      EndingFound(u, datastores[1..], extensions);
    }
  }

  /** Some ending is found exactly when the string is one, and it is that one. */
  lemma EndingMatched(u: string, d: string, e: string, extensions: seq<string>)
    requires d in DATASTORES && e in extensions && u == Ending(d, e)
    ensures MatchEnding(u, DATASTORES, extensions) == Some((d, e))
  {
    EndingFound(u, DATASTORES, extensions);
    var (d', e') := MatchEnding(u, DATASTORES, extensions).value;
    EndingDetermines(d, e, d', e');
  }

  // ---------- the module ----------

  predicate Cuts(t: string, moduleName: string, d: string, e: string, extensions: seq<string>) {
    moduleName != "" && d in DATASTORES && e in extensions && t == moduleName + Ending(d, e)
  }

  lemma {:induction false} ModuleFound(t: string, n: nat, extensions: seq<string>)
    requires n <= |t|
    ensures match MatchModule(t, n, extensions) {
              case Some((m, d, e)) => |m| <= n && Cuts(t, m, d, e, extensions)
              case None => true
            }
  {
    if n > 0 {
      EndingFound(t[n..], DATASTORES, extensions);
      if MatchEnding(t[n..], DATASTORES, extensions).None? {
        ModuleFound(t, n - 1, extensions);
      } else {
        assert t == t[..n] + t[n..];
      }
    }
  }

  /**
   If the string can be cut at all, a cut is found whose module is at least as long; one of that length is the one
   found.
   */
  lemma {:induction false} LongestModule(t: string, n: nat, m: string, d: string, e: string, extensions: seq<string>)
    requires |m| <= n <= |t| && Cuts(t, m, d, e, extensions)
    ensures var r := MatchModule(t, n, extensions);
            r.Some? && |m| <= |r.value.0| && (|m| == |r.value.0| ==> r.value == (m, d, e))
  {
    assert t[|m|..] == Ending(d, e) && t[..|m|] == m;
    if n == |m| {
      EndingMatched(t[n..], d, e, extensions);
    } else if MatchEnding(t[n..], DATASTORES, extensions).None? {
      LongestModule(t, n - 1, m, d, e, extensions);
    }
  }

  // ---------- the prefix ----------

  /** Only the full run of digits can be followed by a dash. */
  lemma {:induction false} PrefixIsTheRun(s: string, n: nat, extensions: seq<string>)
    requires n <= LeadingDigits(s)
    ensures MatchPrefix(s, n, extensions) ==
            if n == LeadingDigits(s) && n > 0 && n < |s| && s[n] == '-' then
              (match MatchModule(s[n + 1..], |s| - n - 1, extensions)
               case None => None
               case Some((m, d, e)) => Some(Parse(Some(s[..n]), m, d, e)))
            else None
  {
    if n > 0 {
      PrefixIsTheRun(s, n - 1, extensions);
      if n < LeadingDigits(s) {
        assert s[n] in s[..LeadingDigits(s)];
      }
    }
  }

  lemma {:induction false} RunOfPrefixed(prefix: string, rest: string)
    requires Digits(prefix) && rest != "" && !IsDigit(rest[0])
    ensures LeadingDigits(prefix + rest) == |prefix|
  {
    if prefix == "" {
      assert prefix + rest == rest;
    } else {
      assert prefix[0] in prefix && forall c :: c in prefix[1..] ==> c in prefix;
      assert (prefix + rest)[1..] == prefix[1..] + rest;
      RunOfPrefixed(prefix[1..], rest);
    }
  }

  // ---------- sound, complete, and which match is preferred ----------

  /** What the pattern reports prints back to the file name. */
  lemma MatchPrintsBack(s: string, extensions: seq<string>)
    requires Match(s, extensions).Some?
    ensures Allowed(Match(s, extensions).value, extensions) && Show(Match(s, extensions).value) == s
  {
    var n := LeadingDigits(s);
    PrefixIsTheRun(s, n, extensions);
    if MatchPrefix(s, n, extensions).Some? {
      ModuleFound(s[n + 1..], |s| - n - 1, extensions);
      assert s == (s[..n] + "-") + s[n + 1..];
    } else {
      ModuleFound(s, |s|, extensions);
      var p := Match(s, extensions).value;
      assert Show(p) == p.moduleName + Ending(p.datastore, p.extension);
    }
  }

  /** The order of preference among the readings of one name: a prefix rather than none, then the longer module. */
  predicate AtLeastAsGood(p: Parse, q: Parse) {
    && (q.prefix.Some? ==> p.prefix.Some?)
    && (q.prefix.Some? == p.prefix.Some? ==> |q.moduleName| <= |p.moduleName|)
  }

  /**
   The backtracking finds a match whenever there is one, and of all readings of the name it finds the
   best; no other reading is as good.
   */
  lemma MatchIsTheBestReading(q: Parse, extensions: seq<string>)
    requires Allowed(q, extensions)
    ensures var r := Match(Show(q), extensions);
            r.Some? && AtLeastAsGood(r.value, q) && (AtLeastAsGood(q, r.value) ==> r.value == q)
  {
    if q.prefix.Some? {
      BestWithPrefix(q, extensions);
    } else {
      BestWithoutPrefix(q, extensions);
    }
  }

  lemma BestWithPrefix(q: Parse, extensions: seq<string>)
    requires Allowed(q, extensions) && q.prefix.Some?
    ensures var r := Match(Show(q), extensions);
            r.Some? && AtLeastAsGood(r.value, q) && (AtLeastAsGood(q, r.value) ==> r.value == q)
  {
    var (digits, tail) := (q.prefix.value, q.moduleName + Ending(q.datastore, q.extension));
    var s := digits + ("-" + tail);
    assert Show(q) == s;
    RunOfPrefixed(digits, "-" + tail);
    PrefixIsTheRun(s, |digits|, extensions);
    assert s[|digits|] == '-' && s[..|digits|] == digits && s[|digits| + 1..] == tail;
    LongestModule(tail, |tail|, q.moduleName, q.datastore, q.extension, extensions);
  }

  lemma BestWithoutPrefix(q: Parse, extensions: seq<string>)
    requires Allowed(q, extensions) && q.prefix.None?
    ensures var r := Match(Show(q), extensions);
            r.Some? && AtLeastAsGood(r.value, q) && (AtLeastAsGood(q, r.value) ==> r.value == q)
  {
    var s := q.moduleName + Ending(q.datastore, q.extension);
    assert Show(q) == s;
    PrefixIsTheRun(s, LeadingDigits(s), extensions);
    LongestModule(s, |s|, q.moduleName, q.datastore, q.extension, extensions);
  }

  // ---------- the order of names ----------

  /** String comparison by code points; a proper prefix comes first. */
  predicate Before(a: string, b: string) {
    b != "" && (a == "" || a[0] < b[0] || (a[0] == b[0] && Before(a[1..], b[1..])))
  }

  predicate NotAfter(a: string, b: string) {
    a == b || Before(a, b)
  }

  lemma {:induction false} BeforeIsTransitive(a: string, b: string, c: string)
    requires Before(a, b) && Before(b, c)
    ensures Before(a, c)
  {
    if a != "" && a[0] == b[0] && b[0] == c[0] {
      BeforeIsTransitive(a[1..], b[1..], c[1..]);
    }
  }

  lemma {:induction false} BeforeIsTotal(a: string, b: string)
    ensures a == b || Before(a, b) || Before(b, a)
    ensures !(Before(a, b) && Before(b, a)) && !Before(a, a)
  {
    if a != "" && b != "" {
      BeforeIsTotal(a[1..], b[1..]);
      BeforeIsTotal(a[1..], a[1..]);
      assert a == [a[0]] + a[1..] && b == [b[0]] + b[1..];
    } else if a != "" {
      BeforeIsTotal(a[1..], a[1..]);
    }
  }

  ghost predicate Sorted(names: seq<string>) {
    forall i, j :: 0 <= i < j < |names| ==> NotAfter(names[i], names[j])
  }

  function Insert(name: string, names: seq<string>): seq<string> {
    if names == [] || NotAfter(name, names[0]) then [name] + names else [names[0]] + Insert(name, names[1..])
  }

  /** sorted() */
  function Sort(names: seq<string>): seq<string> {
    if names == [] then [] else Insert(names[0], Sort(names[1..]))
  }

  lemma {:induction false} InsertAdds(name: string, names: seq<string>)
    ensures multiset(Insert(name, names)) == multiset(names) + multiset{name}
  {
    if names != [] {
      InsertAdds(name, names[1..]);
      assert names == [names[0]] + names[1..];
    }
  }

  lemma {:induction false} InsertSorts(name: string, names: seq<string>)
    requires Sorted(names)
    ensures Sorted(Insert(name, names))
  {
    if names != [] && !NotAfter(name, names[0]) {
      var rest := names[1..];
      InsertSorts(name, rest);
      InsertAdds(name, rest);
      BeforeIsTotal(name, names[0]);
      assert forall i :: 0 <= i < |rest| ==> rest[i] == names[i + 1];
      SortedCons(names[0], Insert(name, rest), name, rest);
    } else if names != [] {
      SortedFirst(name, names);
    }
  }

  lemma SortedFirst(name: string, names: seq<string>)
    requires names != [] && Sorted(names) && NotAfter(name, names[0])
    ensures Sorted([name] + names)
  {
    forall i | 0 <= i < |names|
      ensures NotAfter(name, names[i])
    {
      if name != names[0] && i > 0 && names[0] != names[i] {
        BeforeIsTransitive(name, names[0], names[i]);
      }
    }
  }

  lemma SortedCons(first: string, inserted: seq<string>, name: string, rest: seq<string>)
    requires Sorted(inserted) && multiset(inserted) == multiset(rest) + multiset{name}
    requires NotAfter(first, name) && forall i :: 0 <= i < |rest| ==> NotAfter(first, rest[i])
    ensures Sorted([first] + inserted)
  {
    forall i | 0 <= i < |inserted|
      ensures NotAfter(first, inserted[i])
    {
      assert inserted[i] in multiset(inserted);
      assert inserted[i] == name || inserted[i] in rest;
    }
  }

  lemma {:induction false} SortSorts(names: seq<string>)
    ensures multiset(Sort(names)) == multiset(names) && Sorted(Sort(names))
  {
    if names != [] {
      SortSorts(names[1..]);
      InsertAdds(names[0], Sort(names[1..]));
      InsertSorts(names[0], Sort(names[1..]));
      assert names == [names[0]] + names[1..];
    }
  }

  // ---------- the files, in loading order ----------

  datatype File = File(name: string, parse: Parse)

  predicate IsTop(f: File) {
    f.parse.moduleName == SCHEMA_MOUNT
  }

  /** The files whose names match. */
  function Matching(names: seq<string>, extensions: seq<string>): (files: seq<File>)
    ensures forall f :: f in files ==> f.name in names && Match(f.name, extensions) == Some(f.parse)
  {
    if names == [] then []
    else
      var last := names[|names|-1];
      assert forall n :: n in names[..|names|-1] ==> n in names;
      Matching(names[..|names|-1], extensions) +
      match Match(last, extensions) {
        case None => []
        case Some(p) => [File(last, p)]
      }
  }

  function Only(files: seq<File>, top: bool): seq<File> {
    if files == [] then []
    else Only(files[..|files|-1], top) + (if IsTop(files[|files|-1]) == top then [files[|files|-1]] else [])
  }

  /** The files of a directory in the order in which they are loaded. */
  function Ordered(listing: seq<string>, extensions: seq<string>): seq<File> {
    var results := Matching(Sort(listing), extensions);
    Only(results, true) + Only(results, false)
  }

  method GetDatastoreFiles(listing: seq<string>, extensions: seq<string>) returns (ordered: seq<File>)
    ensures ordered == Ordered(listing, extensions)
  {
    var names, results := Sort(listing), [];
    for i := 0 to |names|
      invariant results == Matching(names[..i], extensions)
    {
      assert names[..i + 1][..i] == names[..i];
      var parse := Match(names[i], extensions);
      if parse.Some? {
        results := results + [File(names[i], parse.value)];
      }
    }
    assert names[..|names|] == names;
    ordered := Only(results, true) + Only(results, false);
  }

  lemma {:induction false} OnlyMembers(files: seq<File>, top: bool)
    ensures forall f :: f in Only(files, top) ==> IsTop(f) == top
  {
    if files != [] {
      OnlyMembers(files[..|files|-1], top);
    }
  }

  lemma OneMoreCounts(files: seq<File>, last: File, f: File)
    ensures multiset(files + [last])[f] == multiset(files)[f] + (if last == f then 1 else 0)
    ensures multiset(files + [])[f] == multiset(files)[f]
  {
    assert files + [] == files;
  }

  lemma {:induction false} OnlyCounts(files: seq<File>, f: File)
    ensures multiset(Only(files, true))[f] + multiset(Only(files, false))[f] == multiset(files)[f]
  {
    hide IsTop;
    if files != [] {
      var n := |files| - 1;
      OnlyCounts(files[..n], f);
      assert files == files[..n] + [files[n]];
      OneMoreCounts(files[..n], files[n], f);
      OneMoreCounts(Only(files[..n], true), files[n], f);
      OneMoreCounts(Only(files[..n], false), files[n], f);
    }
  }

  ghost predicate InOrder(files: seq<File>) {
    forall i, j :: 0 <= i < j < |files| ==> NotAfter(files[i].name, files[j].name)
  }

  lemma {:induction false} OnlyKeepsOrder(files: seq<File>, top: bool)
    requires InOrder(files)
    ensures InOrder(Only(files, top)) && forall f :: f in Only(files, top) ==> f in files
  {
    if files != [] {
      var n := |files| - 1;
      OnlyKeepsOrder(files[..n], top);
      forall f | f in Only(files[..n], top)
        ensures NotAfter(f.name, files[n].name)
      {
        var k :| 0 <= k < n && files[..n][k] == f;
        assert NotAfter(files[k].name, files[n].name);
      }
    }
  }

  lemma {:induction false} MatchingKeepsOrder(names: seq<string>, extensions: seq<string>)
    requires Sorted(names)
    ensures InOrder(Matching(names, extensions))
  {
    if names != [] {
      var n := |names| - 1;
      MatchingKeepsOrder(names[..n], extensions);
      forall f | f in Matching(names[..n], extensions)
        ensures NotAfter(f.name, names[n])
      {
        var k :| 0 <= k < n && names[..n][k] == f.name;
        assert NotAfter(names[k], names[n]);
      }
    }
  }

  /** A name is listed as often as it occurs in the directory, if it matches, and not at all otherwise. */
  function Times(names: seq<string>, name: string): nat {
    multiset(names)[name]
  }

  lemma {:induction false} MatchingCounts(names: seq<string>, extensions: seq<string>, f: File)
    ensures multiset(Matching(names, extensions))[f]
            == if Match(f.name, extensions) == Some(f.parse) then Times(names, f.name) else 0
  {
    hide Match, Matching, Times;
    if names == [] {
      NothingMatches(extensions, f.name);
    } else {
      var init, last := names[..|names|-1], names[|names|-1];
      MatchingCounts(init, extensions, f);
      assert names == init + [last];
      LastMatches(init, last, extensions, f.name);
      OneMoreCounts(Matching(init, extensions), File(last, f.parse), f);
      if Match(last, extensions).Some? {
        OneMoreCounts(Matching(init, extensions), File(last, Match(last, extensions).value), f);
      }
    }
  }

  lemma NothingMatches(extensions: seq<string>, name: string)
    ensures Matching([], extensions) == [] && Times([], name) == 0
  {
  }

  lemma LastMatches(init: seq<string>, last: string, extensions: seq<string>, name: string)
    ensures Matching(init + [last], extensions)
            == Matching(init, extensions) +
               (if Match(last, extensions).Some? then [File(last, Match(last, extensions).value)] else [])
    ensures Times(init + [last], name) == Times(init, name) + (if last == name then 1 else 0)
  {
    assert (init + [last])[..|init|] == init;
  }

  /** Exactly the matching files are loaded, each as often as it is listed. */
  lemma LoadedAreTheMatching(listing: seq<string>, extensions: seq<string>, f: File)
    ensures multiset(Ordered(listing, extensions))[f]
            == if Match(f.name, extensions) == Some(f.parse) then Times(listing, f.name) else 0
  {
    SortSorts(listing);
    OnlyCounts(Matching(Sort(listing), extensions), f);
    MatchingCounts(Sort(listing), extensions, f);
  }

  predicate ForSchemaMount(f: File) {
    f.parse.moduleName == "ietf-yang-schema-mount"
  }

  ghost predicate TopFirst(files: seq<File>) {
    && (forall i, j :: 0 <= i < j < |files| && ForSchemaMount(files[j]) ==> ForSchemaMount(files[i]))
    && (forall i, j :: 0 <= i < j < |files| && ForSchemaMount(files[i]) == ForSchemaMount(files[j]) ==>
         NotAfter(files[i].name, files[j].name))
  }

  lemma TwoGroups(top: seq<File>, other: seq<File>)
    requires InOrder(top) && InOrder(other)
    requires (forall f :: f in top ==> IsTop(f)) && (forall f :: f in other ==> !IsTop(f))
    ensures TopFirst(top + other)
  {
    assert forall f: File :: IsTop(f) <==> ForSchemaMount(f);
  }

  /** The schema-mount files come first, and within each of the two groups the names are in order. */
  lemma LoadingOrder(listing: seq<string>, extensions: seq<string>)
    ensures TopFirst(Ordered(listing, extensions))
  {
    var results := Matching(Sort(listing), extensions);
    SortSorts(listing);
    MatchingKeepsOrder(Sort(listing), extensions);
    OnlyKeepsOrder(results, true);
    OnlyKeepsOrder(results, false);
    OnlyMembers(results, true);
    OnlyMembers(results, false);
    TwoGroups(Only(results, true), Only(results, false));
  }

  // ---------- numbered files ----------

  /** A module name by the grammar of identifiers in YANG: it starts with a letter or an underscore. */
  predicate StartsLikeAnIdentifier(s: string) {
    s != "" && ('a' <= s[0] <= 'z' || 'A' <= s[0] <= 'Z' || s[0] == '_')
  }

  lemma NumberedFirst(p: Parse, q: Parse)
    requires p.prefix.Some? && q.prefix.None? && p.prefix.value != "" && Digits(p.prefix.value)
             && StartsLikeAnIdentifier(q.moduleName)
    ensures Before(Show(p), Show(q)) && !NotAfter(Show(q), Show(p))
  {
    assert Show(p)[0] == p.prefix.value[0] && p.prefix.value[0] in p.prefix.value;
    assert Show(q) == q.moduleName + Ending(q.datastore, q.extension);
    assert Show(q)[0] == q.moduleName[0];
    BeforeIsTotal(Show(p), Show(q));
  }

  /**
   Files with a number are loaded before files without one, within each group, if the modules are named as YANG
   demands.
   */
  lemma NumberedFilesLoadFirst(listing: seq<string>, extensions: seq<string>, i: nat, j: nat)
    requires var files := Ordered(listing, extensions);
             && i < j < |files| && IsTop(files[i]) == IsTop(files[j])
             && (files[i].parse.prefix.None? ==> StartsLikeAnIdentifier(files[i].parse.moduleName))
    ensures var files := Ordered(listing, extensions); files[j].parse.prefix.Some? ==> files[i].parse.prefix.Some?
  {
    var files := Ordered(listing, extensions);
    LoadingOrder(listing, extensions);
    IsMatch(listing, extensions, i);
    IsMatch(listing, extensions, j);
    if files[j].parse.prefix.Some? && files[i].parse.prefix.None? {
      NumberedFirst(files[j].parse, files[i].parse);
    }
  }

  lemma IsMatch(listing: seq<string>, extensions: seq<string>, i: nat)
    requires i < |Ordered(listing, extensions)|
    ensures var f := Ordered(listing, extensions)[i]; Allowed(f.parse, extensions) && Show(f.parse) == f.name
  {
    var results := Matching(Sort(listing), extensions);
    var f := Ordered(listing, extensions)[i];
    OnlyCounts(results, f);
    assert f in multiset(Only(results, true)) + multiset(Only(results, false));
    assert f in multiset(results);
    MatchPrintsBack(f.name, extensions);
  }

  lemma {:induction false} CommonStart(p: string, u: string, v: string)
    ensures Before(p + u, p + v) <==> Before(u, v)
  {
    if p == "" {
      assert p + u == u && p + v == v;
    } else {
      assert (p + u)[1..] == p[1..] + u && (p + v)[1..] == p[1..] + v;
      CommonStart(p[1..], u, v);
    }
  }

  lemma {:induction false} SameNumberSameDigits(a: string, b: string)
    requires |a| == |b| && Digits(a) && Digits(b) && Number(a) == Number(b)
    ensures a == b
  {
    if a != "" {
      var n := |a| - 1;
      assert forall c :: c in a[..n] ==> c in a;
      assert forall c :: c in b[..n] ==> c in b;
      assert a[n] in a && b[n] in b;
      SameNumberSameDigits(a[..n], b[..n]);
      assert a == a[..n] + [a[n]] && b == b[..n] + [b[n]];
    }
  }

  /** Among digit strings of the same width, the smaller number sorts first, whatever follows. */
  lemma {:induction false} SmallerNumberFirst(a: string, b: string, x: string, y: string)
    requires |a| == |b| && Digits(a) && Digits(b) && Number(a) < Number(b)
    ensures Before(a + x, b + y)
  {
    var n := |a| - 1;
    assert forall c :: c in a[..n] ==> c in a;
    assert forall c :: c in b[..n] ==> c in b;
    assert a[n] in a && b[n] in b;
    assert a + x == a[..n] + ([a[n]] + x) && b + y == b[..n] + ([b[n]] + y);
    if Number(a[..n]) < Number(b[..n]) {
      SmallerNumberFirst(a[..n], b[..n], [a[n]] + x, [b[n]] + y);
    } else {
      SameNumberSameDigits(a[..n], b[..n]);
      CommonStart(a[..n], [a[n]] + x, [b[n]] + y);
    }
  }

  lemma InOrderByNumber(p: Parse, q: Parse)
    requires p.prefix.Some? && q.prefix.Some? && |p.prefix.value| == |q.prefix.value|
    requires Digits(p.prefix.value) && Digits(q.prefix.value) && NotAfter(Show(p), Show(q))
    ensures Number(p.prefix.value) <= Number(q.prefix.value)
  {
    var x := "-" + (p.moduleName + Ending(p.datastore, p.extension));
    var y := "-" + (q.moduleName + Ending(q.datastore, q.extension));
    assert Show(p) == p.prefix.value + x && Show(q) == q.prefix.value + y;
    if Number(q.prefix.value) < Number(p.prefix.value) {
      SmallerNumberFirst(q.prefix.value, p.prefix.value, y, x);
      BeforeIsTotal(Show(q), Show(p));
    }
  }

  /** Numbers of the same width load in their numeric order. */
  lemma NumbersOfEqualWidthInOrder(listing: seq<string>, extensions: seq<string>, i: nat, j: nat)
    requires var files := Ordered(listing, extensions);
             && i < j < |files| && IsTop(files[i]) == IsTop(files[j])
             && files[i].parse.prefix.Some? && files[j].parse.prefix.Some?
             && |files[i].parse.prefix.value| == |files[j].parse.prefix.value|
    ensures var (p, q) := (Ordered(listing, extensions)[i].parse.prefix.value,
              Ordered(listing, extensions)[j].parse.prefix.value);
            Digits(p) && Digits(q) && Number(p) <= Number(q)
  {
    LoadingOrder(listing, extensions);
    IsMatch(listing, extensions, i);
    IsMatch(listing, extensions, j);
    InOrderByNumber(Ordered(listing, extensions)[i].parse, Ordered(listing, extensions)[j].parse);
  }
}
