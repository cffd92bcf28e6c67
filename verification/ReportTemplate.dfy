/**
 The report generator as a small template compiler. The program works on the template text, with
 replace and regular-expression substitution; here its result is shown to be what the template means
 when it is read as a sequence of texts, variables and blocks.
 */
module ReportTemplate {
  import opened Strings

  // ---------- the program's side: operations on the text ----------

  function Marker(name: string): string {
    "@" + name + "@"
  }

  /** group(1) of the first match of open(.*?)close. */
  function Search(s: string, open: string, close: string): Option<string>
    requires open != ""
    decreases |s|
  {
    if StartsWith(s, open) && Find(s[|open|..], close).Some? then
      Some(s[|open|..][..Find(s[|open|..], close).value])
    else if s == "" then None
    else Search(s[1..], open, close)
  }

  /** re.sub of open(.*?)close by a text without backslashes. */
  function Sub(s: string, open: string, close: string, value: string): string
    requires open != ""
    decreases |s|
  {
    if StartsWith(s, open) && Find(s[|open|..], close).Some? then
      value + Sub(s[|open|..][Find(s[|open|..], close).value + |close|..], open, close, value)
    else if s == "" then ""
    else [s[0]] + Sub(s[1..], open, close, value)
  }

  /** What fills the template: texts for the variables, and per point its id and its value. */
  datatype Data = Data(startTime: string, endTime: string, suspect: string, logPeriod: string, repPeriod: string,
                       hostname: string, points: seq<string>, ids: map<string, string>, values: map<string, string>)

  datatype Kind = PointBlock | ValueBlock

  function OpenName(kind: Kind): string {
    if kind.PointBlock? then "point-start" else "value-start"
  }

  function CloseName(kind: Kind): string {
    if kind.PointBlock? then "point-end" else "value-end"
  }

  /** The variable that, besides the id, makes up a row of the block. */
  function ColumnName(kind: Kind): string {
    if kind.PointBlock? then "point-name" else "value"
  }

  predicate Complete(d: Data) {
    forall p :: p in d.points ==> p in d.ids && p in d.values
  }

  function Column(kind: Kind, d: Data, point: string): string
    requires point in d.values
  {
    if kind.PointBlock? then point else d.values[point]
  }

  /** The block body with the id and the column of one point filled in, and a line break. */
  function Row(kind: Kind, d: Data, body: string, point: string): string
    requires point in d.ids && point in d.values
  {
    Replace(Replace(body, Marker("point-id"), d.ids[point]), Marker(ColumnName(kind)), Column(kind, d, point)) + "\n"
  }

  /** The replacement text: one row per point. */
  function Rows(kind: Kind, d: Data, body: string, points: seq<string>): string
    requires forall p :: p in points ==> p in d.ids && p in d.values
  {
    if points == [] then "" else Row(kind, d, body, points[0]) + Rows(kind, d, body, points[1..])
  }

  lemma {:induction false} RowsGrow(kind: Kind, d: Data, body: string, points: seq<string>, point: string)
    requires forall p :: p in points + [point] ==> p in d.ids && p in d.values
    ensures point in d.ids && point in d.values && forall p :: p in points ==> p in d.ids && p in d.values
    ensures Rows(kind, d, body, points + [point]) == Rows(kind, d, body, points) + Row(kind, d, body, point)
  {
    assert point in points + [point] && forall p :: p in points ==> p in points + [point];
    if points == [] {
      assert (points + [point])[1..] == [];
    } else {
      assert (points + [point])[1..] == points[1..] + [point];
      RowsGrow(kind, d, body, points[1..], point);
      Regroup(Row(kind, d, body, points[0]), Rows(kind, d, body, points[1..]), Row(kind, d, body, point));
    }
  }

  lemma Regroup<T>(a: seq<T>, b: seq<T>, c: seq<T>)
    ensures (a + b) + c == a + (b + c)
  {
  }

  function Expand(kind: Kind, d: Data, template: string): string
    requires Complete(d)
  {
    var open, close := Marker(OpenName(kind)), Marker(CloseName(kind));
    var found := Search(template, open, close);
    var body := if found.Some? then found.value else "";
    Sub(template, open, close, Rows(kind, d, body, d.points))
  }

  function ReplaceAll(s: string, vars: seq<(string, string)>): string
    decreases |vars|
  {
    if vars == [] then s else ReplaceAll(Replace(s, Marker(vars[0].0), vars[0].1), vars[1..])
  }

  function HeaderVars(d: Data): seq<(string, string)> {
    [("start-time", d.startTime), ("end-time", d.endTime), ("suspect", d.suspect),
     ("log-period", d.logPeriod), ("rep-period", d.repPeriod)]
  }

  function Content(template: string, d: Data): string
    requires Complete(d)
  {
    var header := ReplaceAll(template, HeaderVars(d));
    var points := Expand(PointBlock, d, header);
    var values := Expand(ValueBlock, d, points);
    Replace(values, Marker("hostname"), d.hostname)
  }

  // ---------- the template's side: texts, variables, blocks ----------

  datatype Tok = Txt(s: string) | Var(name: string)

  datatype Item = One(tok: Tok) | Block(kind: Kind, body: seq<Tok>)

  function RenderTok(t: Tok): string {
    match t
    case Txt(s) => s
    case Var(n) => Marker(n)
  }

  function Render(toks: seq<Tok>): string {
    if toks == [] then "" else RenderTok(toks[0]) + Render(toks[1..])
  }

  function Delimited(b: Item): seq<Tok>
    requires b.Block?
  {
    [Var(OpenName(b.kind))] + b.body + [Var(CloseName(b.kind))]
  }

  function Flat(items: seq<Item>): seq<Tok> {
    if items == [] then []
    else (if items[0].One? then [items[0].tok] else Delimited(items[0])) + Flat(items[1..])
  }

  /** The template file that spells the items out. */
  function Source(items: seq<Item>): string {
    Render(Flat(items))
  }

  predicate NameChar(c: char) {
    'a' <= c <= 'z' || c == '-'
  }

  predicate NameChars(s: string) {
    forall c :: c in s ==> NameChar(c)
  }

  predicate IsName(n: string) {
    n != "" && NameChars(n)
  }

  predicate Guards(s: string) {
    exists c :: c in s && !NameChar(c)
  }

  /**
   How many variables may come next. Two may be adjacent; then some text must have a character that cannot
   be part of a variable name, for whatever stands between two variables must not look like one.
   */
  type Room = n: nat | n <= 2

  function RoomAfter(s: string, room: Room): Room {
    if Guards(s) || room == 2 then 2 else if s == "" then room else 0
  }

  /** Texts are free of '@', and variables need room. */
  function Pass(t: Tok, room: Room): Option<Room> {
    match t
    case Txt(s) => if '@' in s then None else Some(RoomAfter(s, room))
    case Var(n) => if room > 0 && IsName(n) then Some(room - 1) else None
  }

  /** Walks over the tokens. Returns the room behind the last one, or None when they are not well separated. */
  function Scan(toks: seq<Tok>, room: Room): Option<Room> {
    if toks == [] then Some(room)
    else match Pass(toks[0], room)
      case None => None
      case Some(after) => Scan(toks[1..], after)
  }

  predicate Separated(toks: seq<Tok>) {
    Scan(toks, 2).Some?
  }

  function SubstTok(t: Tok, env: map<string, string>): Tok {
    if t.Var? && t.name in env then Txt(env[t.name]) else t
  }

  function Subst(toks: seq<Tok>, env: map<string, string>): seq<Tok> {
    if toks == [] then [] else [SubstTok(toks[0], env)] + Subst(toks[1..], env)
  }

  predicate Clean(env: map<string, string>) {
    forall n :: n in env ==> '@' !in env[n]
  }

  // ---------- scanning and substituting ----------

  lemma {:induction false} ScanAppend(a: seq<Tok>, b: seq<Tok>, room: Room)
    ensures Scan(a + b, room) == (if Scan(a, room).None? then None else Scan(b, Scan(a, room).value))
  {
    if a == [] {
      assert a + b == b;
    } else {
      assert (a + b)[1..] == a[1..] + b;
      if Pass(a[0], room).Some? {
        ScanAppend(a[1..], b, Pass(a[0], room).value);
      }
    }
  }

  lemma PassMonotone(t: Tok, env: map<string, string>, room: Room, room': Room)
    requires Clean(env) && Pass(t, room).Some? && room <= room'
    ensures Pass(SubstTok(t, env), room').Some? && Pass(t, room).value <= Pass(SubstTok(t, env), room').value
  {
  }

  /** More room, and clean texts instead of variables, can only help. */
  lemma {:induction false} SubstKeepsScan(toks: seq<Tok>, env: map<string, string>, room: Room, room': Room)
    requires Clean(env) && Scan(toks, room).Some? && room <= room'
    ensures var after := Scan(Subst(toks, env), room');
            after.Some? && Scan(toks, room).value <= after.value
  {
    if toks != [] {
      PassMonotone(toks[0], env, room, room');
      SubstKeepsScan(toks[1..], env, Pass(toks[0], room).value, Pass(SubstTok(toks[0], env), room').value);
    }
  }

  lemma {:induction false} SubstNothing(toks: seq<Tok>)
    ensures Subst(toks, map[]) == toks
  {
    if toks != [] {
      SubstNothing(toks[1..]);
    }
  }

  lemma ScanMonotone(toks: seq<Tok>, room: Room, room': Room)
    requires Scan(toks, room).Some? && room <= room'
    ensures Scan(toks, room').Some? && Scan(toks, room).value <= Scan(toks, room').value
  {
    SubstKeepsScan(toks, map[], room, room');
    SubstNothing(toks);
  }

  lemma {:induction false} SubstAppend(a: seq<Tok>, b: seq<Tok>, env: map<string, string>)
    ensures Subst(a + b, env) == Subst(a, env) + Subst(b, env)
  {
    if a == [] {
      assert a + b == b;
    } else {
      assert (a + b)[1..] == a[1..] + b;
      SubstAppend(a[1..], b, env);
    }
  }

  lemma {:induction false} SubstTwice(toks: seq<Tok>, first: map<string, string>, second: map<string, string>)
    ensures Subst(Subst(toks, first), second) == Subst(toks, second + first)
  {
    if toks != [] {
      SubstTwice(toks[1..], first, second);
    }
  }

  lemma {:induction false} RenderAppend(a: seq<Tok>, b: seq<Tok>)
    ensures Render(a + b) == Render(a) + Render(b)
  {
    if a == [] {
      assert a + b == b;
    } else {
      assert (a + b)[1..] == a[1..] + b;
      RenderAppend(a[1..], b);
    }
  }

  // ---------- where a marker can occur in a rendered template ----------

  /** No occurrence of m starts inside the first n characters of s. */
  ghost predicate Quiet(s: string, n: nat, m: string) {
    n <= |s| && forall i: nat :: i < n ==> !StartsWith(s[i..], m)
  }

  /** After a variable, the text cannot go on with a name and the '@' that would close it. */
  lemma {:induction false} NoNameAhead(toks: seq<Tok>, room: Room, name: string)
    requires Scan(toks, room).Some? && room < 2 && NameChars(name) && (room == 0 || name != "")
    ensures !StartsWith(Render(toks), name + "@")
    decreases |toks|, 0
  {
    if toks != [] {
      match toks[0]
      case Var(n) => MarkerIsNoName(Marker(n) + Render(toks[1..]), name);
      case Txt(s) => NoNameAfterText(s, toks[1..], room, name);
    }
  }

  lemma MarkerIsNoName(s: string, name: string)
    requires s != "" && s[0] == '@' && name != "" && NameChars(name)
    ensures !StartsWith(s, name + "@")
  {
    assert name[0] in name && (name + "@")[0] == name[0];
  }

  lemma NoNameAfterText(s: string, rest: seq<Tok>, room: Room, name: string)
    requires '@' !in s && Scan(rest, RoomAfter(s, room)).Some? && room < 2 && NameChars(name)
             && (room == 0 || name != "")
    ensures !StartsWith(s + Render(rest), name + "@")
    decreases |rest|, 1
  {
    var m, text := name + "@", s + Render(rest);
    if StartsWith(text, m) {
      assert text[..|m|] == m && text[|name|] == m[|name|] == '@';
      assert |s| <= |name|;
      assert s == text[..|s|] == m[..|s|] == name[..|s|];
      assert forall c :: c in s ==> c in name;
      var name' := name[|s|..];
      assert Render(rest) == text[|s|..];
      assert Render(rest)[..|name'| + 1] == m[|s|..] == name' + "@";
      NoNameAhead(rest, RoomAfter(s, room), name');
    }
  }

  lemma QuietAppend(u: string, v: string, w: string, m: string)
    requires Quiet(u + v + w, |u|, m) && Quiet(v + w, |v|, m)
    ensures Quiet(u + v + w, |u| + |v|, m)
  {
    var s := u + v + w;
    forall i: nat | i < |u| + |v|
      ensures !StartsWith(s[i..], m)
    {
      if |u| <= i {
        assert s[i..] == (v + w)[i - |u|..];
      }
    }
  }

  lemma NamesHaveNoAt(n: string)
    requires IsName(n)
    ensures '@' !in n
  {}

  lemma OneNamePerMarker(n: string, name: string, rest: string)
    requires IsName(n) && IsName(name) && StartsWith(Marker(n) + rest, Marker(name))
    ensures n == name
  {
    var s := Marker(n) + rest;
    NamesHaveNoAt(n);
    NamesHaveNoAt(name);
    assert s[..|name| + 2] == Marker(name);
    assert s[|n| + 1] == '@' && s[|name| + 1] == Marker(name)[|name| + 1] == '@';
    assert |n| == |name|;
    assert n == s[1..|n| + 1];
    assert name == Marker(name)[1..|n| + 1] == s[..|n| + 2][1..|n| + 1];
  }

  lemma QuietVariable(n: string, rest: seq<Tok>, room: Room, name: string)
    requires Scan(rest, room).Some? && room < 2 && IsName(n) && IsName(name) && n != name
    ensures Quiet(Marker(n) + Render(rest), |n| + 2, Marker(name))
  {
    var s, m := Marker(n) + Render(rest), Marker(name);
    NamesHaveNoAt(n);
    if StartsWith(s, m) { OneNamePerMarker(n, name, Render(rest)); }
    NoNameAhead(rest, room, name);
    forall i: nat | i < |n| + 2
      ensures !StartsWith(s[i..], m)
    {
      if i == 0 {
        assert s[0..] == s;
      } else if i <= |n| {
        assert s[i..][0] == n[i - 1] && n[i - 1] in n;
      } else {
        assert s[i..] == "@" + Render(rest);
        if StartsWith(s[i..], m) { MarkerBehindAt(Render(rest), name); }
      }
    }
  }

  lemma MarkerBehindAt(rest: string, name: string)
    requires StartsWith("@" + rest, Marker(name))
    ensures StartsWith(rest, name + "@")
  {
    assert rest[..|name| + 1] == ("@" + rest)[1..|name| + 2] == Marker(name)[1..] == name + "@";
  }

  /** No marker of another name starts inside a token. */
  lemma QuietToken(t: Tok, rest: seq<Tok>, room: Room, name: string)
    requires Scan([t] + rest, room).Some? && IsName(name) && t != Var(name)
    ensures Quiet(RenderTok(t) + Render(rest), |RenderTok(t)|, Marker(name))
  {
    assert ([t] + rest)[1..] == rest;
    match t
    case Var(n) => QuietVariable(n, rest, room - 1, name);
    case Txt(u) =>
      var s := u + Render(rest);
      forall i: nat | i < |u|
        ensures !StartsWith(s[i..], Marker(name))
      {
        assert s[i..][0] == u[i] && u[i] in u;
      }
  }

  lemma {:induction false} QuietTokens(toks: seq<Tok>, rest: seq<Tok>, room: Room, name: string)
    requires Scan(toks + rest, room).Some? && IsName(name) && Var(name) !in toks
    ensures Quiet(Render(toks) + Render(rest), |Render(toks)|, Marker(name))
  {
    if toks != [] {
      var t, more := toks[0], toks[1..] + rest;
      assert (toks + rest)[1..] == more && toks + rest == [t] + more;
      QuietToken(t, more, room, name);
      QuietTokens(toks[1..], rest, Pass(t, room).value, name);
      RenderAppend(toks[1..], rest);
      assert RenderTok(t) + Render(more) == RenderTok(t) + Render(toks[1..]) + Render(rest);
      QuietAppend(RenderTok(t), Render(toks[1..]), Render(rest), Marker(name));
    }
  }

  // ---------- skipping quiet text ----------

  lemma QuietTail(u: string, s: string, m: string)
    requires u != "" && Quiet(u + s, |u|, m)
    ensures !StartsWith(u + s, m) && (u + s)[1..] == u[1..] + s && Quiet(u[1..] + s, |u| - 1, m)
  {
    assert (u + s)[0..] == u + s;
    assert (u + s)[1..] == u[1..] + s;
    assert forall i: nat :: i < |u| - 1 ==> (u[1..] + s)[i..] == (u + s)[i + 1..];
  }

  lemma {:induction false} ReplaceSkips(u: string, s: string, m: string, v: string)
    requires m != "" && Quiet(u + s, |u|, m)
    ensures Replace(u + s, m, v) == u + Replace(s, m, v)
  {
    if u == "" {
      assert u + s == s;
    } else {
      QuietTail(u, s, m);
      ReplaceSkips(u[1..], s, m, v);
      calc {
        Replace(u + s, m, v);
        [(u + s)[0]] + Replace((u + s)[1..], m, v);
        [u[0]] + (u[1..] + Replace(s, m, v));
        u + Replace(s, m, v);
      }
    }
  }

  lemma {:induction false} SubSkips(u: string, s: string, open: string, close: string, v: string)
    requires open != "" && Quiet(u + s, |u|, open)
    ensures Sub(u + s, open, close, v) == u + Sub(s, open, close, v)
    ensures Search(u + s, open, close) == Search(s, open, close)
  {
    if u == "" {
      assert u + s == s;
    } else {
      QuietTail(u, s, open);
      SubSkips(u[1..], s, open, close, v);
      calc {
        Sub(u + s, open, close, v);
        [(u + s)[0]] + Sub((u + s)[1..], open, close, v);
        [u[0]] + (u[1..] + Sub(s, open, close, v));
        u + Sub(s, open, close, v);
      }
    }
  }

  lemma FindSkips(u: string, m: string, s: string)
    requires Quiet(u + (m + s), |u|, m)
    ensures Find(u + (m + s), m) == Some(|u|)
  {
    var t := u + (m + s);
    assert t[|u|..] == m + s;
    FindIs(t, m, |u|);
  }

  // ---------- replace on a rendered template ----------

  lemma {:induction false} ReplaceIsSubst(toks: seq<Tok>, room: Room, name: string, v: string)
    requires Scan(toks, room).Some? && IsName(name)
    ensures Replace(Render(toks), Marker(name), v) == Render(Subst(toks, map[name := v]))
  {
    if toks != [] {
      var t := toks[0];
      ReplaceIsSubst(toks[1..], Pass(t, room).value, name, v);
      if t == Var(name) {
        assert Render(toks)[|Marker(name)|..] == Render(toks[1..]);
      } else {
        assert toks == [t] + toks[1..];
        QuietToken(t, toks[1..], room, name);
        ReplaceSkips(RenderTok(t), Render(toks[1..]), Marker(name), v);
      }
    }
  }

  // ---------- why variables need room ----------

  lemma ReplaceHere(m: string, rest: string, v: string)
    requires m != ""
    ensures Replace(m + rest, m, v) == v + Replace(rest, m, v)
  {
    assert (m + rest)[|m|..] == rest;
  }

  /** A text without '@' and one more '@' are too little for a marker. */
  lemma NoMarkerInTail(b: string, name: string, v: string)
    requires '@' !in b && IsName(name)
    ensures Replace(b + "@", Marker(name), v) == b + "@"
  {
    var m, s := Marker(name), b + "@";
    forall i: nat | i < |b|
      ensures !StartsWith(s[i..], m)
    {
      assert s[i..][0] == b[i] && b[i] in b;
    }
    ReplaceSkips(b, "@", m, v);
    assert "@"[1..] == "";
  }

  /** In front of a text that no closing '@' follows, a variable is not taken for one of another name. */
  lemma OtherVariableStays(a: string, rest: string, name: string, v: string)
    requires IsName(a) && IsName(name) && a != name && !StartsWith(rest, name + "@")
    ensures Replace(Marker(a) + rest, Marker(name), v) == Marker(a) + Replace(rest, Marker(name), v)
  {
    var u, s, m := Marker(a), Marker(a) + rest, Marker(name);
    NamesHaveNoAt(a);
    if StartsWith(s, m) { OneNamePerMarker(a, name, rest); }
    forall i: nat | i < |u|
      ensures !StartsWith(s[i..], m)
    {
      if i == 0 {
        assert s[0..] == s;
      } else if i <= |a| {
        assert s[i..][0] == a[i - 1] && a[i - 1] in a;
      } else {
        assert s[i..] == "@" + rest;
        if StartsWith(s[i..], m) { MarkerBehindAt(rest, name); }
      }
    }
    ReplaceSkips(u, rest, m, v);
  }

  /** A text that spells a name between two variables is taken for a variable, at the cost of the two. */
  lemma NameBetweenVariables(a: string, n: string, b: string, v: string)
    requires IsName(a) && IsName(n) && IsName(b) && a != n
    ensures Replace(Render([Var(a), Txt(n), Var(b)]), Marker(n), v) == "@" + a + v + b + "@"
  {
    hide Replace, Render, IsName;
    RenderOfThree(Var(a), Txt(n), Var(b));
    SharedAt(a, n, b);
    QuietUntilShared(a, n, b + "@");
    ReplaceSkips("@" + a, Marker(n) + (b + "@"), Marker(n), v);
    ReplaceHere(Marker(n), b + "@", v);
    NamesHaveNoAt(b);
    NoMarkerInTail(b, n, v);
    RegroupFour("@" + a, v, b, "@");
  }

  /** The '@' that closes one variable and the '@' that opens the next enclose the text between. */
  lemma SharedAt(a: string, n: string, b: string)
    ensures Marker(a) + (n + Marker(b)) == ("@" + a) + (Marker(n) + (b + "@"))
  {
  }

  lemma RegroupFour(a: string, v: string, b: string, c: string)
    ensures a + (v + (b + c)) == a + v + b + c
  {
  }

  lemma QuietUntilShared(a: string, n: string, rest: string)
    requires IsName(a) && IsName(n) && a != n
    ensures Quiet(("@" + a) + (Marker(n) + rest), |a| + 1, Marker(n))
  {
    var s, m := ("@" + a) + (Marker(n) + rest), Marker(n);
    NamesHaveNoAt(a);
    assert s == Marker(a) + (n + ("@" + rest));
    if StartsWith(s, m) { OneNamePerMarker(a, n, n + ("@" + rest)); }
    forall i: nat | i < |a| + 1
      ensures !StartsWith(s[i..], m)
    {
      if i == 0 {
        assert s[0..] == s;
      } else {
        assert s[i..][0] == a[i - 1] && a[i - 1] in a;
      }
    }
  }

  lemma RenderOfThree(x: Tok, y: Tok, z: Tok)
    ensures Render([x, y, z]) == RenderTok(x) + (RenderTok(y) + RenderTok(z))
  {
    RenderCons(x, [y, z]);
    RenderCons(y, [z]);
    RenderCons(z, []);
    assert [x] + [y, z] == [x, y, z] && [y] + [z] == [y, z];
  }

  /**
   So there is no room for a third variable in a row: when the middle one stands for the name of another
   variable, the two around it are lost with it.
   */
  lemma ThreeInARow(a: string, x: string, b: string, n: string, v: string)
    requires IsName(a) && IsName(x) && IsName(b) && IsName(n) && a != x && b != x && a != n
    ensures Replace(Replace(Render([Var(a), Var(x), Var(b)]), Marker(x), n), Marker(n), v) == "@" + a + v + b + "@"
  {
    RenderOfThree(Var(a), Var(x), Var(b));
    RenderOfThree(Var(a), Txt(n), Var(b));
    MarkerIsNoName(Marker(x) + Marker(b), x);
    OtherVariableStays(a, Marker(x) + Marker(b), x, n);
    ReplaceHere(Marker(x), Marker(b), n);
    assert Marker(b) + "" == Marker(b);
    OtherVariableStays(b, "", x, n);
    NameBetweenVariables(a, n, b, v);
  }

  function EnvOf(vars: seq<(string, string)>): map<string, string> {
    if vars == [] then map[] else EnvOf(vars[1..])[vars[0].0 := vars[0].1]
  }

  predicate Named(vars: seq<(string, string)>) {
    forall v :: v in vars ==> IsName(v.0) && '@' !in v.1
  }

  lemma {:induction false} ReplaceAllIsSubst(toks: seq<Tok>, vars: seq<(string, string)>)
    requires Separated(toks) && Named(vars)
    ensures ReplaceAll(Render(toks), vars) == Render(Subst(toks, EnvOf(vars)))
    ensures Separated(Subst(toks, EnvOf(vars)))
    decreases |vars|
  {
    if vars == [] {
      SubstNothing(toks);
    } else {
      var (name, v) := vars[0];
      assert vars[0] in vars;
      ReplaceIsSubst(toks, 2, name, v);
      SubstKeepsScan(toks, map[name := v], 2, 2);
      ReplaceAllIsSubst(Subst(toks, map[name := v]), vars[1..]);
      SubstTwice(toks, map[name := v], EnvOf(vars[1..]));
      assert EnvOf(vars[1..]) + map[name := v] == EnvOf(vars);
    }
  }

  // ---------- blocks ----------

  function Ones(toks: seq<Tok>): seq<Item> {
    if toks == [] then [] else [One(toks[0])] + Ones(toks[1..])
  }

  /** The items with every block of a kind replaced by the same tokens. */
  function Filled(items: seq<Item>, kind: Kind, rows: seq<Tok>): seq<Item> {
    if items == [] then []
    else if items[0].Block? && items[0].kind == kind then Ones(rows) + Filled(items[1..], kind, rows)
    else [items[0]] + Filled(items[1..], kind, rows)
  }

  /** The body of the first block of a kind; this is the one the program repeats for all of them. */
  function FirstBody(items: seq<Item>, kind: Kind): Option<seq<Tok>> {
    if items == [] then None
    else if items[0].Block? && items[0].kind == kind then Some(items[0].body)
    else FirstBody(items[1..], kind)
  }

  predicate BlockName(n: string) {
    n == "point-start" || n == "point-end" || n == "value-start" || n == "value-end"
  }

  predicate NoBlockNames(toks: seq<Tok>) {
    forall t :: t in toks && t.Var? ==> !BlockName(t.name)
  }

  /** The block delimiters only occur around blocks. */
  predicate Nested(items: seq<Item>) {
    forall i :: i in items ==> NoBlockNames(if i.One? then [i.tok] else i.body)
  }

  lemma {:induction false} FlatAppend(a: seq<Item>, b: seq<Item>)
    ensures Flat(a + b) == Flat(a) + Flat(b)
  {
    if a == [] {
      assert a + b == b;
    } else {
      assert (a + b)[1..] == a[1..] + b;
      FlatAppend(a[1..], b);
    }
  }

  lemma {:induction false} FlatOnes(toks: seq<Tok>)
    ensures Flat(Ones(toks)) == toks
    ensures NoBlockNames(toks) ==> Nested(Ones(toks))
  {
    if toks != [] {
      FlatOnes(toks[1..]);
      assert forall t :: t in toks[1..] ==> t in toks;
      assert toks[0] in toks;
    }
  }

  lemma RenderCons(t: Tok, rest: seq<Tok>)
    ensures Render([t] + rest) == RenderTok(t) + Render(rest)
    ensures Render([t]) == RenderTok(t)
  {
    assert ([t] + rest)[1..] == rest;
    assert [t][1..] == [];
  }

  lemma ScanCons(t: Tok, rest: seq<Tok>, room: Room)
    ensures Scan([t] + rest, room) == match Pass(t, room)
                                      case None => None
                                      case Some(after) => Scan(rest, after)
  {
    assert ([t] + rest)[1..] == rest;
  }

  function Tokens(i: Item): seq<Tok> {
    if i.One? then [i.tok] else Delimited(i)
  }

  lemma FlatOfFirst(i: Item, rest: seq<Item>)
    ensures Flat([i] + rest) == Tokens(i) + Flat(rest)
    ensures i.Block? ==>
              Flat([i] + rest) == [Var(OpenName(i.kind))] + (i.body + ([Var(CloseName(i.kind))] + Flat(rest)))
  {
  }

  lemma SourceOfFirst(i: Item, rest: seq<Item>)
    ensures Source([i] + rest) == Render(Tokens(i)) + Source(rest)
    ensures i.Block? ==>
              Source([i] + rest) == Marker(OpenName(i.kind))
                + (Render(i.body) + (Marker(CloseName(i.kind)) + Source(rest)))
  {
    FlatOfFirst(i, rest);
    RenderAppend(Tokens(i), Flat(rest));
    if i.Block? {
      var close := [Var(CloseName(i.kind))] + Flat(rest);
      RenderCons(Var(OpenName(i.kind)), i.body + close);
      RenderAppend(i.body, close);
      RenderCons(Var(CloseName(i.kind)), Flat(rest));
    }
  }

  /** A well separated template is well separated inside each block, and after its first item. */
  lemma ScanFirst(i: Item, rest: seq<Item>, room: Room) returns (after: Room)
    requires Scan(Flat([i] + rest), room).Some?
    ensures Scan(Flat(rest), after).Some?
    ensures i.One? ==> Scan([i.tok], room) == Some(after)
    ensures i.Block? ==>
              room > 0 && after < 2 && Scan(i.body, room - 1).Some? && Scan(i.body, room - 1).value == after + 1
                         && Scan(i.body + ([Var(CloseName(i.kind))] + Flat(rest)), room - 1).Some?
  {
    FlatOfFirst(i, rest);
    if i.One? {
      ScanAppend([i.tok], Flat(rest), room);
      after := Scan([i.tok], room).value;
    } else {
      var close := [Var(CloseName(i.kind))] + Flat(rest);
      ScanCons(Var(OpenName(i.kind)), i.body + close, room);
      ScanAppend(i.body, close, room - 1);
      ScanCons(Var(CloseName(i.kind)), Flat(rest), Scan(i.body, room - 1).value);
      after := Scan(i.body, room - 1).value - 1;
    }
  }

  /** The body of a block does well behind one variable, and leaves room for another. */
  predicate BodySeparated(body: seq<Tok>) {
    Scan(body, 1).Some? && Scan(body, 1).value > 0
  }

  lemma BlockBodySeparated(i: Item, rest: seq<Item>, room: Room)
    requires i.Block? && Scan(Flat([i] + rest), room).Some?
    ensures BodySeparated(i.body)
  {
    var after := ScanFirst(i, rest, room);
    ScanMonotone(i.body, room - 1, 1);
  }

  lemma DelimitersAreNames(kind: Kind)
    ensures IsName(OpenName(kind)) && IsName(CloseName(kind)) && IsName(ColumnName(kind)) && IsName("point-id")
    ensures BlockName(OpenName(kind)) && BlockName(CloseName(kind))
  {}

  /** re.sub on the template text replaces exactly the blocks; re.search finds the first one's body. */
  lemma {:induction false} SubFillsBlocks(items: seq<Item>, room: Room, kind: Kind, rows: seq<Tok>)
    requires Scan(Flat(items), room).Some? && Nested(items)
    ensures Sub(Source(items), Marker(OpenName(kind)), Marker(CloseName(kind)), Render(rows))
            == Source(Filled(items, kind, rows))
    ensures Search(Source(items), Marker(OpenName(kind)), Marker(CloseName(kind)))
            == match FirstBody(items, kind) case None => None case Some(b) => Some(Render(b))
  {
    if items != [] {
      var i, rest := items[0], items[1..];
      assert items == [i] + rest;
      assert i in items && forall j :: j in rest ==> j in items;
      var after := ScanFirst(i, rest, room);
      SubFillsBlocks(rest, after, kind, rows);
      DelimitersAreNames(kind);
      SourceOfFirst(i, rest);
      if i.Block? && i.kind == kind {
        SubFillsFirstBlock(i, rest, room - 1, kind, rows);
      } else {
        SubSkipsItem(i, rest, room, kind, Render(rows));
        SourceOfFirst(i, Filled(rest, kind, rows));
      }
    }
  }

  lemma SubSkipsItem(i: Item, rest: seq<Item>, room: Room, kind: Kind, v: string)
    requires Scan(Flat([i] + rest), room).Some? && Nested([i] + rest)
    requires i.Block? ==> i.kind != kind
    ensures Sub(Source([i] + rest), Marker(OpenName(kind)), Marker(CloseName(kind)), v)
            == Render(Tokens(i)) + Sub(Source(rest), Marker(OpenName(kind)), Marker(CloseName(kind)), v)
    ensures Search(Source([i] + rest), Marker(OpenName(kind)), Marker(CloseName(kind)))
            == Search(Source(rest), Marker(OpenName(kind)), Marker(CloseName(kind)))
  {
    DelimitersAreNames(kind);
    SourceOfFirst(i, rest);
    FlatOfFirst(i, rest);
    var toks := Tokens(i);
    assert i in [i] + rest;
    assert NoBlockNames(if i.One? then [i.tok] else i.body);
    assert Var(OpenName(kind)) !in toks;
    QuietTokens(toks, Flat(rest), room, OpenName(kind));
    SubSkips(Render(toks), Source(rest), Marker(OpenName(kind)), Marker(CloseName(kind)), v);
  }

  lemma SubFillsFirstBlock(i: Item, rest: seq<Item>, room: Room, kind: Kind, rows: seq<Tok>)
    requires i.Block? && i.kind == kind && NoBlockNames(i.body)
    requires Scan(i.body + ([Var(CloseName(kind))] + Flat(rest)), room).Some?
    ensures var open, close := Marker(OpenName(kind)), Marker(CloseName(kind));
            && Sub(Source([i] + rest), open, close, Render(rows))
               == Render(rows) + Sub(Source(rest), open, close, Render(rows))
            && Search(Source([i] + rest), open, close) == Some(Render(i.body))
    ensures Source(Filled([i] + rest, kind, rows)) == Render(rows) + Source(Filled(rest, kind, rows))
  {
    var open, close := Marker(OpenName(kind)), Marker(CloseName(kind));
    DelimitersAreNames(kind);
    SourceOfFirst(i, rest);
    CloseFound(i.body, rest, room, kind);
    SubOfBlock(open, Render(i.body), close, Source(rest), Render(rows));
    FilledFirst(i, rest, kind, rows);
  }

  /** The non-greedy group ends at the block's own closing marker. */
  lemma CloseFound(body: seq<Tok>, rest: seq<Item>, room: Room, kind: Kind)
    requires NoBlockNames(body) && Scan(body + ([Var(CloseName(kind))] + Flat(rest)), room).Some?
    ensures Find(Render(body) + (Marker(CloseName(kind)) + Source(rest)), Marker(CloseName(kind)))
            == Some(|Render(body)|)
  {
    var close := Marker(CloseName(kind));
    DelimitersAreNames(kind);
    QuietTokens(body, [Var(CloseName(kind))] + Flat(rest), room, CloseName(kind));
    RenderCons(Var(CloseName(kind)), Flat(rest));
    FindSkips(Render(body), close, Source(rest));
  }

  lemma SubOfBlock(open: string, body: string, close: string, tail: string, value: string)
    requires open != "" && Find(body + (close + tail), close) == Some(|body|)
    ensures Sub(open + (body + (close + tail)), open, close, value) == value + Sub(tail, open, close, value)
    ensures Search(open + (body + (close + tail)), open, close) == Some(body)
  {
    hide Sub, Search, Find;
    var inner := body + (close + tail);
    BlockParts(body, close, tail);
    BehindPrefix(open, inner);
    SubAtOpen(open + inner, open, inner, close, |body|, value);
    SearchAtOpen(open + inner, open, inner, close, |body|);
  }

  lemma BehindPrefix(open: string, inner: string)
    ensures StartsWith(open + inner, open) && (open + inner)[|open|..] == inner
  {
  }

  lemma BlockParts(body: string, close: string, tail: string)
    ensures (body + (close + tail))[..|body|] == body && (body + (close + tail))[|body| + |close|..] == tail
  {
  }

  lemma SubAtOpen(s: string, open: string, inner: string, close: string, end: nat, value: string)
    requires open != "" && StartsWith(s, open) && s[|open|..] == inner && Find(inner, close) == Some(end)
    ensures Sub(s, open, close, value) == value + Sub(inner[end + |close|..], open, close, value)
  {
  }

  lemma SearchAtOpen(s: string, open: string, inner: string, close: string, end: nat)
    requires open != "" && StartsWith(s, open) && s[|open|..] == inner && Find(inner, close) == Some(end)
    ensures Search(s, open, close) == Some(inner[..end])
  {
  }

  lemma FilledFirst(i: Item, rest: seq<Item>, kind: Kind, rows: seq<Tok>)
    requires i.Block? && i.kind == kind
    ensures Source(Filled([i] + rest, kind, rows)) == Render(rows) + Source(Filled(rest, kind, rows))
  {
    assert ([i] + rest)[1..] == rest;
    FlatAppend(Ones(rows), Filled(rest, kind, rows));
    FlatOnes(rows);
    RenderAppend(rows, Flat(Filled(rest, kind, rows)));
  }

  // ---------- the rows of a block ----------

  predicate CleanData(d: Data) {
    && Complete(d)
    && '@' !in d.startTime && '@' !in d.endTime && '@' !in d.suspect
    && '@' !in d.logPeriod && '@' !in d.repPeriod && '@' !in d.hostname
    && forall p :: p in d.points ==> '@' !in p && '@' !in d.ids[p] && '@' !in d.values[p]
  }

  function RowOfToks(kind: Kind, d: Data, body: seq<Tok>, point: string): seq<Tok>
    requires point in d.ids && point in d.values
  {
    Subst(Subst(body, map["point-id" := d.ids[point]]), map[ColumnName(kind) := Column(kind, d, point)])
  }

  function RowToks(kind: Kind, d: Data, body: seq<Tok>, points: seq<string>): seq<Tok>
    requires forall p :: p in points ==> p in d.ids && p in d.values
  {
    if points == [] then []
    else RowOfToks(kind, d, body, points[0]) + ([Txt("\n")] + RowToks(kind, d, body, points[1..]))
  }

  lemma {:induction false} SubstKeepsNames(toks: seq<Tok>, env: map<string, string>)
    requires NoBlockNames(toks)
    ensures NoBlockNames(Subst(toks, env))
  {
    if toks != [] {
      assert toks[0] in toks && forall t :: t in toks[1..] ==> t in toks;
      SubstKeepsNames(toks[1..], env);
    }
  }

  lemma RowRendersRowToks(kind: Kind, d: Data, body: seq<Tok>, p: string)
    requires CleanData(d) && p in d.points && BodySeparated(body) && NoBlockNames(body)
    ensures var row := RowOfToks(kind, d, body, p);
            Row(kind, d, Render(body), p) == Render(row) + "\n" && Scan(row, 1).Some? && NoBlockNames(row)
  {
    var id, column := map["point-id" := d.ids[p]], map[ColumnName(kind) := Column(kind, d, p)];
    var withId := Subst(body, id);
    DelimitersAreNames(kind);
    ReplaceIsSubst(body, 1, "point-id", d.ids[p]);
    SubstKeepsScan(body, id, 1, 1);
    ReplaceIsSubst(withId, 1, ColumnName(kind), Column(kind, d, p));
    SubstKeepsScan(withId, column, 1, 1);
    SubstKeepsNames(body, id);
    SubstKeepsNames(withId, column);
  }

  lemma RowFirst(row: seq<Tok>, more: seq<Tok>)
    requires Scan(row, 1).Some? && Scan(more, 2).Some? && NoBlockNames(row) && NoBlockNames(more)
    ensures var toks := row + ([Txt("\n")] + more);
            && Render(toks) == Render(row) + "\n" + Render(more) && NoBlockNames(toks)
            && Scan(toks, 1) == Scan(more, 2)
  {
    hide Scan, Render;
    RenderAppend(row, [Txt("\n")] + more);
    RenderCons(Txt("\n"), more);
    assert RenderTok(Txt("\n")) == "\n";
    Regroup(Render(row), "\n", Render(more));
    ScanAppend(row, [Txt("\n")] + more, 1);
    LineGuards(more, Scan(row, 1).value);
  }

  lemma LineGuards(more: seq<Tok>, room: Room)
    ensures Scan([Txt("\n")] + more, room) == Scan(more, 2)
  {
    hide Scan;
    ScanCons(Txt("\n"), more, room);
    assert '\n' in "\n" && Guards("\n");
  }

  /** The text of the rows spells out the row tokens, and these are as well separated as the body. */
  lemma {:induction false} RowsRenderRowToks(kind: Kind, d: Data, body: seq<Tok>, points: seq<string>)
    requires CleanData(d) && forall p :: p in points ==> p in d.points
    requires BodySeparated(body) && NoBlockNames(body)
    ensures Rows(kind, d, Render(body), points) == Render(RowToks(kind, d, body, points))
    ensures BodySeparated(RowToks(kind, d, body, points))
    ensures NoBlockNames(RowToks(kind, d, body, points))
  {
    if points != [] {
      RowRendersRowToks(kind, d, body, points[0]);
      RowsRenderRowToks(kind, d, body, points[1..]);
      ScanMonotone(RowToks(kind, d, body, points[1..]), 1, 2);
      RowFirst(RowOfToks(kind, d, body, points[0]), RowToks(kind, d, body, points[1..]));
    }
  }

  // ---------- stages of the pipeline on items ----------

  predicate WellFormed(items: seq<Item>) {
    Separated(Flat(items)) && Nested(items)
  }

  function SubstItem(i: Item, env: map<string, string>): Item {
    match i
    case One(t) => One(SubstTok(t, env))
    case Block(kind, body) => Block(kind, Subst(body, env))
  }

  function SubstItems(items: seq<Item>, env: map<string, string>): seq<Item> {
    if items == [] then [] else [SubstItem(items[0], env)] + SubstItems(items[1..], env)
  }

  lemma {:induction false} SubstFirstBody(items: seq<Item>, env: map<string, string>, kind: Kind)
    ensures FirstBody(SubstItems(items, env), kind)
            == match FirstBody(items, kind) case None => None case Some(b) => Some(Subst(b, env))
  {
    if items != [] {
      SubstFirstBody(items[1..], env, kind);
    }
  }

  lemma {:induction false} SubstItemsIsSubst(items: seq<Item>, env: map<string, string>)
    requires Nested(items) && forall n :: n in env ==> !BlockName(n)
    ensures Flat(SubstItems(items, env)) == Subst(Flat(items), env)
    ensures Nested(SubstItems(items, env))
  {
    if items != [] {
      var i, rest := items[0], items[1..];
      assert i in items && forall j :: j in rest ==> j in items;
      SubstItemsIsSubst(rest, env);
      SubstAppend(Tokens(i), Flat(rest), env);
      assert NoBlockNames(if i.One? then [i.tok] else i.body);
      if i.Block? {
        SubstKeepsNames(i.body, env);
        SubstDelimited(i, env);
      } else {
        SubstKeepsNames([i.tok], env);
        assert Subst([i.tok], env) == [SubstTok(i.tok, env)];
      }
    }
  }

  lemma SubstDelimited(i: Item, env: map<string, string>)
    requires i.Block? && forall n :: n in env ==> !BlockName(n)
    ensures Subst(Delimited(i), env) == Delimited(SubstItem(i, env))
  {
    var open, close := Var(OpenName(i.kind)), Var(CloseName(i.kind));
    DelimitersAreNames(i.kind);
    SubstAppend([open] + i.body, [close], env);
    SubstAppend([open], i.body, env);
    assert Subst([open], env) == [open] && Subst([close], env) == [close];
  }

  lemma {:induction false} FilledKeepsScan(items: seq<Item>, kind: Kind, rows: seq<Tok>, room: Room, room': Room)
    requires Scan(Flat(items), room).Some? && Nested(items) && room <= room'
    requires BodySeparated(rows) && NoBlockNames(rows)
    ensures Scan(Flat(Filled(items, kind, rows)), room').Some?
    ensures Nested(Filled(items, kind, rows))
  {
    if items != [] {
      var i, rest := items[0], items[1..];
      assert items == [i] + rest && i in items && forall j :: j in rest ==> j in items;
      var after := ScanFirst(i, rest, room);
      var filled := Filled(rest, kind, rows);
      FlatOnes(rows);
      if i.Block? && i.kind == kind {
        ScanMonotone(rows, 1, room');
        FilledKeepsScan(rest, kind, rows, after, Scan(rows, room').value);
        FlatAppend(Ones(rows), filled);
        ScanAppend(rows, Flat(filled), room');
      } else {
        FlatOfFirst(i, rest);
        FlatOfFirst(i, filled);
        ScanAppend(Tokens(i), Flat(rest), room);
        ScanMonotone(Tokens(i), room, room');
        FilledKeepsScan(rest, kind, rows, Scan(Tokens(i), room).value, Scan(Tokens(i), room').value);
        ScanAppend(Tokens(i), Flat(filled), room');
      }
    }
  }

  function RowsFor(kind: Kind, d: Data, items: seq<Item>): seq<Tok>
    requires Complete(d)
  {
    match FirstBody(items, kind)
    case None => []
    case Some(body) => RowToks(kind, d, body, d.points)
  }

  lemma {:induction false} NothingToFill(items: seq<Item>, kind: Kind, rows: seq<Tok>)
    requires FirstBody(items, kind).None?
    ensures Filled(items, kind, rows) == items
  {
    if items != [] {
      NothingToFill(items[1..], kind, rows);
    }
  }

  lemma {:induction false} FirstBodyIsSeparated(items: seq<Item>, kind: Kind, room: Room)
    requires Scan(Flat(items), room).Some? && Nested(items) && FirstBody(items, kind).Some?
    ensures BodySeparated(FirstBody(items, kind).value) && NoBlockNames(FirstBody(items, kind).value)
  {
    var i, rest := items[0], items[1..];
    assert items == [i] + rest && i in items && forall j :: j in rest ==> j in items;
    assert NoBlockNames(if i.One? then [i.tok] else i.body);
    var after := ScanFirst(i, rest, room);
    if i.Block? && i.kind == kind {
      BlockBodySeparated(i, rest, room);
    } else {
      FirstBodyIsSeparated(rest, kind, after);
    }
  }

  /** One round of search, row building and substitution turns each block into its rows. */
  lemma ExpandFills(kind: Kind, d: Data, items: seq<Item>)
    requires CleanData(d) && WellFormed(items)
    ensures Expand(kind, d, Source(items)) == Source(Filled(items, kind, RowsFor(kind, d, items)))
    ensures WellFormed(Filled(items, kind, RowsFor(kind, d, items)))
  {
    match FirstBody(items, kind)
    case Some(body) =>
      FirstBodyIsSeparated(items, kind, 2);
      RowsRenderRowToks(kind, d, body, d.points);
      SubFillsBlocks(items, 2, kind, RowToks(kind, d, body, d.points));
      FilledKeepsScan(items, kind, RowToks(kind, d, body, d.points), 2, 2);
    case None =>
      var rows := Rows(kind, d, "", d.points);
      RenderCons(Txt(rows), []);
      SubFillsBlocks(items, 2, kind, [Txt(rows)]);
      NothingToFill(items, kind, [Txt(rows)]);
      NothingToFill(items, kind, []);
  }

  // ---------- what a template means ----------

  function Meaning(toks: seq<Tok>, env: map<string, string>): string {
    if toks == [] then ""
    else (match toks[0]
          case Txt(s) => s
          case Var(n) => if n in env then env[n] else Marker(n)) + Meaning(toks[1..], env)
  }

  function Globals(d: Data): map<string, string> {
    map["start-time" := d.startTime, "end-time" := d.endTime, "suspect" := d.suspect,
        "log-period" := d.logPeriod, "rep-period" := d.repPeriod, "hostname" := d.hostname]
  }

  /** The variables of the row for one point. */
  function RowEnv(kind: Kind, d: Data, point: string): map<string, string>
    requires point in d.ids && point in d.values
  {
    Globals(d)["point-id" := d.ids[point]][ColumnName(kind) := Column(kind, d, point)]
  }

  function BlockMeaning(kind: Kind, d: Data, body: seq<Tok>, points: seq<string>): string
    requires forall p :: p in points ==> p in d.ids && p in d.values
  {
    if points == [] then ""
    else Meaning(body, RowEnv(kind, d, points[0])) + "\n" + BlockMeaning(kind, d, body, points[1..])
  }

  function FirstBodyOr(items: seq<Item>, kind: Kind, body: seq<Tok>): seq<Tok> {
    if FirstBody(items, kind).Some? then FirstBody(items, kind).value else body
  }

  /** Every block stands for one row per point of the body the template gives first for its kind. */
  function ReportOf(all: seq<Item>, items: seq<Item>, d: Data): string
    requires Complete(d)
  {
    if items == [] then ""
    else (match items[0]
          case One(t) => Meaning([t], Globals(d))
          case Block(kind, body) => BlockMeaning(kind, d, FirstBodyOr(all, kind, body), d.points))
         + ReportOf(all, items[1..], d)
  }

  lemma {:induction false} RenderSubstIsMeaning(toks: seq<Tok>, env: map<string, string>)
    ensures Render(Subst(toks, env)) == Meaning(toks, env)
  {
    if toks != [] {
      RenderSubstIsMeaning(toks[1..], env);
    }
  }

  lemma EnvOfFirst(name: string, value: string, vars: seq<(string, string)>)
    ensures EnvOf([(name, value)] + vars) == EnvOf(vars)[name := value]
  {
    assert ([(name, value)] + vars)[1..] == vars;
  }

  lemma HeaderEnv(d: Data)
    ensures EnvOf(HeaderVars(d)) == map["start-time" := d.startTime, "end-time" := d.endTime, "suspect" := d.suspect,
                                        "log-period" := d.logPeriod, "rep-period" := d.repPeriod]
  {
    var v4 := [("rep-period", d.repPeriod)];
    var v3 := [("log-period", d.logPeriod)] + v4;
    var v2 := [("suspect", d.suspect)] + v3;
    var v1 := [("end-time", d.endTime)] + v2;
    assert HeaderVars(d) == [("start-time", d.startTime)] + v1 && v4 == [("rep-period", d.repPeriod)] + [];
    EnvOfFirst("rep-period", d.repPeriod, []);
    EnvOfFirst("log-period", d.logPeriod, v4);
    EnvOfFirst("suspect", d.suspect, v3);
    EnvOfFirst("end-time", d.endTime, v2);
    EnvOfFirst("start-time", d.startTime, v1);
  }

  lemma HeaderReplacements(s: string, d: Data)
    ensures ReplaceAll(s, HeaderVars(d))
            == Replace(Replace(Replace(Replace(Replace(s, Marker("start-time"), d.startTime), Marker("end-time"),
                      d.endTime),
                       Marker("suspect"), d.suspect), Marker("log-period"), d.logPeriod), Marker("rep-period"),
                         d.repPeriod)
  {
    var vars := HeaderVars(d);
    var s1 := Replace(s, Marker("start-time"), d.startTime);
    var s2 := Replace(s1, Marker("end-time"), d.endTime);
    var s3 := Replace(s2, Marker("suspect"), d.suspect);
    var s4 := Replace(s3, Marker("log-period"), d.logPeriod);
    assert vars[1..] == [vars[1], vars[2], vars[3], vars[4]] && vars[1..][1..] == vars[2..];
    assert vars[2..][0] == vars[2] && vars[2..][1..] == vars[3..];
    assert vars[3..][0] == vars[3] && vars[3..][1..] == vars[4..];
    assert vars[4..][0] == vars[4] && vars[4..][1..] == [];
    assert ReplaceAll(s, vars) == ReplaceAll(s1, vars[1..]) == ReplaceAll(s2, vars[2..]);
    assert ReplaceAll(s2, vars[2..]) == ReplaceAll(s3, vars[3..]) == ReplaceAll(s4, vars[4..]);
  }

  function HostEnv(d: Data): map<string, string> {
    map["hostname" := d.hostname]
  }

  lemma RowEnvInRounds(kind: Kind, d: Data, p: string)
    requires p in d.ids && p in d.values
    ensures RowEnv(kind, d, p)
            == HostEnv(d) + (map[ColumnName(kind) := Column(kind, d, p)]
                + (map["point-id" := d.ids[p]] + EnvOf(HeaderVars(d))))
  {
    hide EnvOf, HeaderVars;
    HeaderEnv(d);
  }

  /** The four rounds of substitution a row goes through amount to its row environment. */
  lemma RowRounds(kind: Kind, d: Data, body: seq<Tok>, p: string)
    requires p in d.ids && p in d.values
    ensures var header, id, column := EnvOf(HeaderVars(d)), map["point-id" := d.ids[p]],
            map[ColumnName(kind) := Column(kind, d, p)];
            Render(Subst(Subst(Subst(Subst(body, header), id), column), HostEnv(d)))
              == Meaning(body, RowEnv(kind, d, p))
  {
    hide Subst, Render, Meaning, EnvOf, HeaderVars;
    var header, id, column := EnvOf(HeaderVars(d)), map["point-id" := d.ids[p]],
      map[ColumnName(kind) := Column(kind, d, p)];
    RowEnvInRounds(kind, d, p);
    SubstTwice(body, header, id);
    SubstTwice(body, id + header, column);
    SubstTwice(body, column + (id + header), HostEnv(d));
    RenderSubstIsMeaning(body, RowEnv(kind, d, p));
  }

  lemma LineThenMore(more: seq<Tok>, env: map<string, string>)
    ensures Subst([Txt("\n")] + more, env) == [Txt("\n")] + Subst(more, env)
    ensures Render(Subst([Txt("\n")] + more, env)) == "\n" + Render(Subst(more, env))
  {
  }

  lemma RowThenMore(row: seq<Tok>, more: seq<Tok>, env: map<string, string>)
    ensures Render(Subst(row + ([Txt("\n")] + more), env)) == Render(Subst(row, env)) + "\n" + Render(Subst(more, env))
  {
    var line := [Txt("\n")] + more;
    SubstAppend(row, line, env);
    LineThenMore(more, env);
    RenderAppend(Subst(row, env), Subst(line, env));
  }

  lemma {:induction false} RowsMean(kind: Kind, d: Data, body: seq<Tok>, points: seq<string>)
    requires forall p :: p in points ==> p in d.ids && p in d.values
    ensures Render(Subst(RowToks(kind, d, Subst(body, EnvOf(HeaderVars(d))), points), HostEnv(d)))
            == BlockMeaning(kind, d, body, points)
  {
    if points != [] {
      var p, headed := points[0], Subst(body, EnvOf(HeaderVars(d)));
      RowRounds(kind, d, body, p);
      RowsMean(kind, d, body, points[1..]);
      RowThenMore(RowOfToks(kind, d, headed, p),
                  RowToks(kind, d, headed, points[1..]), HostEnv(d));
    }
  }

  // ---------- the whole report ----------

  /** The items after the header round, with the rows filled in for both kinds of block. */
  function Staged(items: seq<Item>, d: Data, points: seq<Tok>, values: seq<Tok>): seq<Item> {
    Filled(Filled(SubstItems(items, EnvOf(HeaderVars(d))), PointBlock, points), ValueBlock, values)
  }

  lemma {:induction false} FilledOnes(toks: seq<Tok>, items: seq<Item>, kind: Kind, rows: seq<Tok>)
    ensures Filled(Ones(toks) + items, kind, rows) == Ones(toks) + Filled(items, kind, rows)
    ensures FirstBody(Ones(toks) + items, kind) == FirstBody(items, kind)
  {
    if toks == [] {
      assert Ones(toks) + items == items;
    } else {
      assert (Ones(toks) + items)[1..] == Ones(toks[1..]) + items;
      FilledOnes(toks[1..], items, kind, rows);
      Regroup([One(toks[0])], Ones(toks[1..]), Filled(items, kind, rows));
    }
  }

  lemma {:induction false} FillingPointsKeepsValueBody(items: seq<Item>, rows: seq<Tok>)
    ensures FirstBody(Filled(items, PointBlock, rows), ValueBlock) == FirstBody(items, ValueBlock)
  {
    if items != [] {
      FillingPointsKeepsValueBody(items[1..], rows);
      if items[0].Block? && items[0].kind == PointBlock {
        FilledOnes(rows, Filled(items[1..], PointBlock, rows), ValueBlock, []);
      }
    }
  }

  lemma RenderSubstAppend(a: seq<Tok>, b: seq<Tok>, env: map<string, string>)
    ensures Render(Subst(a + b, env)) == Render(Subst(a, env)) + Render(Subst(b, env))
  {
    SubstAppend(a, b, env);
    RenderAppend(Subst(a, env), Subst(b, env));
  }

  /** The first item of the staged template, followed by the stages of the others. */
  lemma StagedFirst(i: Item, rest: seq<Item>, d: Data, points: seq<Tok>, values: seq<Tok>)
    ensures Flat(Staged([i] + rest, d, points, values))
            == (match i
                case One(t) => [SubstTok(t, EnvOf(HeaderVars(d)))]
                case Block(kind, _) => if kind.PointBlock? then points else values)
               + Flat(Staged(rest, d, points, values))
  {
    var header := EnvOf(HeaderVars(d));
    var subst := SubstItems(rest, header);
    var half := Filled(subst, PointBlock, points);
    assert ([i] + rest)[1..] == rest;
    assert SubstItems([i] + rest, header) == [SubstItem(i, header)] + subst;
    assert ([SubstItem(i, header)] + subst)[1..] == subst;
    match i
    case One(t) =>
      assert ([One(SubstTok(t, header))] + half)[1..] == half;
      FlatOfFirst(One(SubstTok(t, header)), Filled(half, ValueBlock, values));
    case Block(kind, body) =>
      if kind.PointBlock? {
        FilledOnes(points, half, ValueBlock, values);
        FlatAppend(Ones(points), Filled(half, ValueBlock, values));
        FlatOnes(points);
      } else {
        assert ([SubstItem(i, header)] + half)[1..] == half;
        FlatAppend(Ones(values), Filled(half, ValueBlock, values));
        FlatOnes(values);
      }
  }

  lemma TokenRounds(t: Tok, d: Data)
    ensures Render(Subst([SubstTok(t, EnvOf(HeaderVars(d)))], HostEnv(d))) == Meaning([t], Globals(d))
  {
    HeaderEnv(d);
    var header := EnvOf(HeaderVars(d));
    SubstTwice([t], header, HostEnv(d));
    assert Subst([t], header) == [SubstTok(t, header)];
    assert HostEnv(d) + header == Globals(d);
    RenderSubstIsMeaning([t], Globals(d));
  }

  lemma {:induction false} StagedMeans(all: seq<Item>, items: seq<Item>, d: Data, points: seq<Tok>, values: seq<Tok>)
    requires Complete(d)
    requires forall i :: i in items && i.Block? ==> FirstBody(all, i.kind).Some?
    requires forall kind :: FirstBody(all, kind).Some? ==>
               Render(Subst(if kind.PointBlock? then points else values, HostEnv(d)))
               == BlockMeaning(kind, d, FirstBody(all, kind).value, d.points)
    ensures Render(Subst(Flat(Staged(items, d, points, values)), HostEnv(d))) == ReportOf(all, items, d)
  {
    if items != [] {
      var i, rest := items[0], items[1..];
      assert items == [i] + rest && i in items && forall j :: j in rest ==> j in items;
      StagedMeans(all, rest, d, points, values);
      StagedFirst(i, rest, d, points, values);
      var first := match i
                   case One(t) => [SubstTok(t, EnvOf(HeaderVars(d)))]
                   case Block(kind, _) => if kind.PointBlock? then points else values;
      RenderSubstAppend(first, Flat(Staged(rest, d, points, values)), HostEnv(d));
      if i.One? { TokenRounds(i.tok, d); }
    }
  }

  lemma {:induction false} BlocksHaveFirstBodies(items: seq<Item>)
    ensures forall i :: i in items && i.Block? ==> FirstBody(items, i.kind).Some?
  {
    if items != [] {
      BlocksHaveFirstBodies(items[1..]);
      assert forall i :: i in items ==> i == items[0] || i in items[1..];
    }
  }

  lemma HeaderRound(items: seq<Item>, d: Data)
    requires WellFormed(items) && CleanData(d)
    ensures ReplaceAll(Source(items), HeaderVars(d)) == Source(SubstItems(items, EnvOf(HeaderVars(d))))
    ensures WellFormed(SubstItems(items, EnvOf(HeaderVars(d))))
  {
    HeaderNames(d);
    ReplaceAllIsSubst(Flat(items), HeaderVars(d));
    SubstItemsIsSubst(items, EnvOf(HeaderVars(d)));
  }

  /** None of the header's variables is the name of a block delimiter. */
  lemma HeaderNames(d: Data)
    requires CleanData(d)
    ensures Named(HeaderVars(d)) && forall n :: n in EnvOf(HeaderVars(d)) ==> !BlockName(n)
  {
    hide EnvOf, BlockName, Complete;
    HeaderEnv(d);
    forall n | n in EnvOf(HeaderVars(d))
      ensures !BlockName(n)
    {
      BlockNamesBegin(n);
      assert "start-time"[0] == 's' && "end-time"[0] == 'e' && "suspect"[0] == 's' && "log-period"[0] == 'l'
             && "rep-period"[0] == 'r';
    }
  }

  lemma BlockNamesBegin(n: string)
    ensures BlockName(n) ==> n != "" && n[0] in "pv"
  {
  }

  lemma ContentIsStaged(items: seq<Item>, d: Data)
    requires WellFormed(items) && CleanData(d)
    ensures var headed := SubstItems(items, EnvOf(HeaderVars(d)));
            Content(Source(items), d)
            == Render(Subst(Flat(Staged(items, d, RowsFor(PointBlock, d, headed), RowsFor(ValueBlock, d, headed))),
                  HostEnv(d)))
  {
    HeaderRound(items, d);
    var headed := SubstItems(items, EnvOf(HeaderVars(d)));
    var points := RowsFor(PointBlock, d, headed);
    ExpandFills(PointBlock, d, headed);
    var half := Filled(headed, PointBlock, points);
    FillingPointsKeepsValueBody(headed, points);
    ExpandFills(ValueBlock, d, half);
    ReplaceIsSubst(Flat(Filled(half, ValueBlock, RowsFor(ValueBlock, d, half))), 2, "hostname", d.hostname);
  }

  lemma FirstBodyRows(items: seq<Item>, kind: Kind, d: Data)
    requires WellFormed(items) && CleanData(d) && FirstBody(items, kind).Some?
    ensures Render(Subst(RowsFor(kind, d, SubstItems(items, EnvOf(HeaderVars(d)))), HostEnv(d)))
            == BlockMeaning(kind, d, FirstBody(items, kind).value, d.points)
  {
    SubstFirstBody(items, EnvOf(HeaderVars(d)), kind);
    RowsMean(kind, d, FirstBody(items, kind).value, d.points);
  }

  /** The generator is correct: on the text of a well-formed template it produces what the template means. */
  lemma ContentIsReport(items: seq<Item>, d: Data)
    requires WellFormed(items) && CleanData(d)
    ensures Content(Source(items), d) == ReportOf(items, items, d)
  {
    var headed := SubstItems(items, EnvOf(HeaderVars(d)));
    ContentIsStaged(items, d);
    forall kind | FirstBody(items, kind).Some?
      ensures Render(Subst(RowsFor(kind, d, headed), HostEnv(d)))
              == BlockMeaning(kind, d, FirstBody(items, kind).value, d.points)
    {
      FirstBodyRows(items, kind, d);
    }
    BlocksHaveFirstBodies(items);
    StagedMeans(items, items, d, RowsFor(PointBlock, d, headed), RowsFor(ValueBlock, d, headed));
  }

  // ---------- consequences ----------

  /** All blocks of a kind have the same body. */
  ghost predicate UniformBlocks(items: seq<Item>) {
    forall i, j :: i in items && j in items && i.Block? && j.Block? && i.kind == j.kind ==> i.body == j.body
  }

  /** Every block stands for one row per point of its own body. */
  function OwnReport(items: seq<Item>, d: Data): string
    requires Complete(d)
  {
    if items == [] then ""
    else (match items[0]
          case One(t) => Meaning([t], Globals(d))
          case Block(kind, body) => BlockMeaning(kind, d, body, d.points))
         + OwnReport(items[1..], d)
  }

  lemma {:induction false} FirstBodyIsABody(items: seq<Item>, kind: Kind)
    ensures FirstBody(items, kind).Some? ==> Block(kind, FirstBody(items, kind).value) in items
  {
    if items != [] {
      FirstBodyIsABody(items[1..], kind);
    }
  }

  lemma {:induction false} UniformReport(all: seq<Item>, items: seq<Item>, d: Data)
    requires Complete(d) && UniformBlocks(all) && forall i :: i in items ==> i in all
    ensures ReportOf(all, items, d) == OwnReport(items, d)
  {
    if items != [] {
      var i := items[0];
      assert i in all;
      if i.Block? { FirstBodyIsABody(all, i.kind); }
      UniformReport(all, items[1..], d);
    }
  }

  /** With the same body in all blocks of a kind, each block is expanded by its own body. */
  lemma UniformTemplatesExpandInPlace(items: seq<Item>, d: Data)
    requires WellFormed(items) && CleanData(d) && UniformBlocks(items)
    ensures Content(Source(items), d) == OwnReport(items, d)
  {
    ContentIsReport(items, d);
    UniformReport(items, items, d);
  }

  /** Header variables occur anywhere, row variables only in the blocks that define them. */
  predicate Defined(items: seq<Item>, d: Data) {
    forall i :: i in items ==>
      match i
      case One(t) => t.Var? ==> t.name in Globals(d)
      case Block(kind, body) => forall t :: t in body && t.Var? ==>
          t.name in Globals(d) || t.name == "point-id" || t.name == ColumnName(kind)
  }

  lemma {:induction false} MeaningIsClean(toks: seq<Tok>, env: map<string, string>, room: Room)
    requires Scan(toks, room).Some? && Clean(env) && forall t :: t in toks && t.Var? ==> t.name in env
    ensures '@' !in Meaning(toks, env)
  {
    if toks != [] {
      assert toks[0] in toks && forall t :: t in toks[1..] ==> t in toks;
      MeaningIsClean(toks[1..], env, Pass(toks[0], room).value);
    }
  }

  lemma {:induction false} BlockMeaningIsClean(kind: Kind, d: Data, body: seq<Tok>, points: seq<string>)
    requires CleanData(d) && (forall p :: p in points ==> p in d.points) && BodySeparated(body)
    requires forall t :: t in body && t.Var? ==>
               t.name in Globals(d) || t.name == "point-id" || t.name == ColumnName(kind)
    ensures '@' !in BlockMeaning(kind, d, body, points)
  {
    if points != [] {
      var p := points[0];
      assert p in d.points;
      assert Clean(RowEnv(kind, d, p));
      MeaningIsClean(body, RowEnv(kind, d, p), 1);
      BlockMeaningIsClean(kind, d, body, points[1..]);
    }
  }

  lemma FirstBlockIsClean(all: seq<Item>, i: Item, d: Data)
    requires CleanData(d) && WellFormed(all) && Defined(all, d) && i in all && i.Block?
    ensures '@' !in BlockMeaning(i.kind, d, FirstBodyOr(all, i.kind, i.body), d.points)
  {
    hide Scan, Flat, BlockMeaning;
    BlocksHaveFirstBodies(all);
    FirstBodyIsABody(all, i.kind);
    FirstBodyIsSeparated(all, i.kind, 2);
    BlockMeaningIsClean(i.kind, d, FirstBody(all, i.kind).value, d.points);
  }

  lemma {:induction false} ReportIsClean(all: seq<Item>, items: seq<Item>, d: Data, room: Room)
    requires CleanData(d) && WellFormed(all) && Defined(all, d) && Scan(Flat(items), room).Some?
    requires forall i :: i in items ==> i in all
    ensures '@' !in ReportOf(all, items, d)
  {
    hide Scan, Flat, Meaning, BlockMeaning, WellFormed;
    if items != [] {
      var i, rest := items[0], items[1..];
      assert items == [i] + rest && i in items && forall j :: j in rest ==> j in items;
      var after := ScanFirst(i, rest, room);
      match i {
        case One(t) => MeaningIsClean([t], Globals(d), room);
        case Block(kind, body) => FirstBlockIsClean(all, i, d);
      }
      ReportIsClean(all, rest, d, after);
    }
  }

  /** No marker survives: the finished report has no '@' at all. */
  lemma NoMarkerLeft(items: seq<Item>, d: Data)
    requires WellFormed(items) && CleanData(d) && Defined(items, d)
    ensures '@' !in Content(Source(items), d)
  {
    ContentIsReport(items, d);
    ReportIsClean(items, items, d, 2);
  }
}
