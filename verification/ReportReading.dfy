/** Reading a finished report back: type rows and value rows join on the point id. */
module ReportReading {
  import opened Strings
  import opened ReportTemplate
  import opened MarkerText

  // ---------- point ids ----------

  /** points_id: each point gets its position, counted from one; a repeated point keeps its last position. */
  function PointIds(points: seq<string>): map<string, string> {
    if points == [] then map[]
    else PointIds(points[..|points|-1])[points[|points|-1] := Decimal(|points|)]
  }

  lemma {:induction false} PointIdsCover(points: seq<string>)
    ensures PointIds(points).Keys == set p | p in points
    ensures forall p :: p in PointIds(points) ==>
              exists k :: 0 <= k < |points| && points[k] == p && PointIds(points)[p] == Decimal(k + 1)
  {
    if points != [] {
      var init, last := points[..|points|-1], points[|points|-1];
      PointIdsCover(init);
      assert points == init + [last];
      forall p | p in PointIds(points)
        ensures exists k :: 0 <= k < |points| && points[k] == p && PointIds(points)[p] == Decimal(k + 1)
      {
        if p == last {
          assert points[|points|-1] == p;
        } else {
          var k :| 0 <= k < |init| && init[k] == p && PointIds(init)[p] == Decimal(k + 1);
          assert points[k] == p;
        }
      }
    }
  }

  /** Two points never share an id, even when the list names a point twice. */
  lemma PointIdsAreUnique(points: seq<string>, p: string, q: string)
    requires p in points && q in points
    ensures p in PointIds(points) && q in PointIds(points)
    ensures PointIds(points)[p] == PointIds(points)[q] ==> p == q
  {
    PointIdsCover(points);
    var i :| 0 <= i < |points| && points[i] == p && PointIds(points)[p] == Decimal(i + 1);
    var j :| 0 <= j < |points| && points[j] == q && PointIds(points)[q] == Decimal(j + 1);
    if PointIds(points)[p] == PointIds(points)[q] {
      DecimalIsInjective(i + 1, j + 1);
    }
  }

  ghost predicate Distinct(points: seq<string>) {
    forall i, j :: 0 <= i < j < |points| ==> points[i] != points[j]
  }

  /** For distinct points the ids are 1, 2, ..., n in list order. */
  lemma PointIdsAreDense(points: seq<string>, k: nat)
    requires Distinct(points) && k < |points|
    ensures points[k] in PointIds(points) && PointIds(points)[points[k]] == Decimal(k + 1)
  {
    PointIdsCover(points);
    assert points[k] in points;
  }

  // ---------- reading rows ----------

  /** The texts around the id and the second column of a row. */
  datatype Layout = Layout(pre: string, mid: string, post: string)

  datatype Row = Row(id: string, cell: string)

  function Body(kind: Kind, l: Layout): seq<Tok> {
    [Txt(l.pre), Var("point-id"), Txt(l.mid), Var(ColumnName(kind)), Txt(l.post)]
  }

  /** The id is read up to the first character that is not a digit. */
  predicate Readable(l: Layout) {
    l.mid != "" && !IsDigit(l.mid[0])
  }

  /** Takes an expected text off the front. */
  function Expect(s: string, expected: string): (rest: Option<string>)
    ensures rest.Some? ==> |rest.value| == |s| - |expected|
  {
    if StartsWith(s, expected) then Some(s[|expected|..]) else None
  }

  /** Takes the leading digits off the front. */
  function Numeral(s: string): (r: (string, string))
    ensures |r.1| <= |s|
  {
    if s != "" && IsDigit(s[0]) then
      var (id, rest) := Numeral(s[1..]);
      ([s[0]] + id, rest)
    else ("", s)
  }

  /** Takes everything up to the first occurrence of m off the front, and m with it. */
  function UpTo(s: string, m: string): (r: Option<(string, string)>)
    ensures r.Some? ==> |r.value.1| <= |s| - |m|
  {
    var end := Find(s, m);
    if end.None? then None else Some((s[..end.value], s[end.value + |m|..]))
  }

  /** Reads one row off the front of the text: the row, and the text after it. */
  function ReadRow(l: Layout, s: string): (r: Option<(Row, string)>)
    ensures r.Some? ==> |r.value.1| < |s|
  {
    match Expect(s, l.pre)
    case None => None
    case Some(s1) =>
      var (id, s2) := Numeral(s1);
      match Expect(s2, l.mid)
      case None => None
      case Some(s3) =>
        match UpTo(s3, l.post + "\n")
        case None => None
        case Some((cell, rest)) => Some((Row(id, cell), rest))
  }

  /** Reads rows as long as there are any, and returns the text after them. */
  function ReadRows(l: Layout, s: string): (seq<Row>, string)
    decreases |s|
  {
    match ReadRow(l, s)
    case None => ([], s)
    case Some((row, rest)) =>
      var (more, end) := ReadRows(l, rest);
      ([row] + more, end)
  }

  /** A cell can be told from what follows it. */
  predicate CellFits(l: Layout, cell: string) {
    Anchored(cell, l.post + "\n")
  }

  /** The text of a row and what comes after it. */
  function RowThen(l: Layout, r: Row, rest: string): string {
    l.pre + (r.id + (l.mid + (r.cell + ((l.post + "\n") + rest))))
  }

  lemma ExpectThen(u: string, v: string)
    ensures Expect(u + v, u) == Some(v)
  {
    assert (u + v)[|u|..] == v;
  }

  lemma {:induction false} NumeralThen(id: string, rest: string)
    requires Digits(id) && rest != "" && !IsDigit(rest[0])
    ensures Numeral(id + rest) == (id, rest)
  {
    if id == "" {
      assert id + rest == rest;
    } else {
      assert id[0] in id && forall c :: c in id[1..] ==> c in id;
      assert (id + rest)[1..] == id[1..] + rest;
      NumeralThen(id[1..], rest);
      assert (id + rest)[0] == id[0] && [id[0]] + id[1..] == id;
    }
  }

  lemma SplitAround(cell: string, m: string, rest: string)
    ensures (cell + (m + rest))[..|cell|] == cell
    ensures (cell + (m + rest))[|cell| + |m|..] == rest
  {}

  lemma UpToThen(cell: string, m: string, rest: string)
    requires m != "" && Anchored(cell, m)
    ensures UpTo(cell + (m + rest), m) == Some((cell, rest))
  {
    AnchoredIsQuiet(cell, m, rest);
    FindSkips(cell, m, rest);
    SplitAround(cell, m, rest);
  }

  lemma FirstOf(u: string, v: string)
    requires u != ""
    ensures u + v != "" && (u + v)[0] == u[0]
  {}

  lemma ReadRowThen(l: Layout, r: Row, rest: string)
    requires Readable(l) && Digits(r.id) && CellFits(l, r.cell)
    ensures ReadRow(l, RowThen(l, r, rest)) == Some((r, rest))
  {
    var s3 := r.cell + ((l.post + "\n") + rest);
    ExpectThen(l.pre, r.id + (l.mid + s3));
    FirstOf(l.mid, s3);
    NumeralThen(r.id, l.mid + s3);
    ExpectThen(l.mid, s3);
    UpToThen(r.cell, l.post + "\n", rest);
  }

  // ---------- reading one block ----------

  function RowsThen(l: Layout, rows: seq<Row>, rest: string): string {
    if rows == [] then rest else RowThen(l, rows[0], RowsThen(l, rows[1..], rest))
  }

  /** Two texts that go different ways at a place which both have. */
  predicate Diverge(s: string, t: string) {
    !Comparable(s, t)
  }

  lemma NoRowAhead(l: Layout, s: string, rest: string)
    requires Diverge(s, l.pre)
    ensures ReadRow(l, s + rest).None?
  {
    if StartsWith(s + rest, l.pre) {
      BeginsLike(s, rest, l.pre);
    }
  }

  lemma ReadRowsFirst(l: Layout, s: string, row: Row, rest: string)
    requires ReadRow(l, s) == Some((row, rest))
    ensures ReadRows(l, s) == ([row] + ReadRows(l, rest).0, ReadRows(l, rest).1)
  {
  }

  lemma ReadNoRows(l: Layout, s: string)
    requires ReadRow(l, s).None?
    ensures ReadRows(l, s) == ([], s)
  {
  }

  lemma {:induction false} ReadRowsOfText(l: Layout, rows: seq<Row>, rest: string)
    requires Readable(l) && (forall r :: r in rows ==> Digits(r.id) && CellFits(l, r.cell)) && ReadRow(l, rest).None?
    ensures ReadRows(l, RowsThen(l, rows, rest)) == (rows, rest)
  {
    hide ReadRow, ReadRows, RowThen, CellFits;
    if rows == [] {
      ReadNoRows(l, rest);
    } else {
      assert rows[0] in rows && forall q :: q in rows[1..] ==> q in rows;
      var more := RowsThen(l, rows[1..], rest);
      ReadRowsOfText(l, rows[1..], rest);
      ReadRowThen(l, rows[0], more);
      ReadRowsFirst(l, RowThen(l, rows[0], more), rows[0], more);
      assert rows == [rows[0]] + rows[1..];
    }
  }

  function RowsOf(kind: Kind, d: Data, points: seq<string>): seq<Row>
    requires forall p :: p in points ==> p in d.ids && p in d.values
  {
    if points == [] then []
    else [Row(d.ids[points[0]], Column(kind, d, points[0]))] + RowsOf(kind, d, points[1..])
  }

  lemma BodyMeaning(kind: Kind, l: Layout, env: map<string, string>, rest: string)
    requires "point-id" in env && ColumnName(kind) in env
    ensures Meaning(Body(kind, l), env) + "\n" + rest == RowThen(l, Row(env["point-id"], env[ColumnName(kind)]), rest)
  {
    var b, id, cell := Body(kind, l), env["point-id"], env[ColumnName(kind)];
    assert b[1..][0] == b[1] && b[1..][1..] == b[2..] && b[2..][0] == b[2] && b[2..][1..] == b[3..];
    assert b[3..][0] == b[3] && b[3..][1..] == b[4..] && b[4..][0] == b[4] && b[4..][1..] == [];
    assert Meaning(b[4..], env) == l.post;
    assert Meaning(b[3..], env) == cell + l.post;
    assert Meaning(b[2..], env) == l.mid + (cell + l.post);
    assert Meaning(b[1..], env) == id + (l.mid + (cell + l.post));
    Regroup(l, id, cell, rest);
  }

  lemma Regroup(l: Layout, id: string, cell: string, rest: string)
    ensures l.pre + (id + (l.mid + (cell + l.post))) + "\n" + rest == RowThen(l, Row(id, cell), rest)
  {}

  lemma {:induction false} BlockIsRowsText(kind: Kind, d: Data, l: Layout, points: seq<string>, rest: string)
    requires forall p :: p in points ==> p in d.ids && p in d.values
    ensures BlockMeaning(kind, d, Body(kind, l), points) + rest == RowsThen(l, RowsOf(kind, d, points), rest)
  {
    if points != [] {
      var more := BlockMeaning(kind, d, Body(kind, l), points[1..]);
      BlockIsRowsText(kind, d, l, points[1..], rest);
      BodyMeaning(kind, l, RowEnv(kind, d, points[0]), more + rest);
      RegroupLine(Meaning(Body(kind, l), RowEnv(kind, d, points[0])), more, rest);
    }
  }

  lemma RegroupLine(line: string, more: string, rest: string)
    ensures (line + "\n" + more) + rest == line + "\n" + (more + rest)
  {}

  lemma {:induction false} RowsOfAt(kind: Kind, d: Data, points: seq<string>)
    requires forall p :: p in points ==> p in d.ids && p in d.values
    ensures var rows := RowsOf(kind, d, points);
            |rows| == |points| && forall k :: 0 <= k < |points| ==>
                rows[k] == Row(d.ids[points[k]], Column(kind, d, points[k]))
  {
    if points != [] {
      RowsOfAt(kind, d, points[1..]);
    }
  }

  /** The blocks as they appear in the report can be read back: row k shows the id and the column of point k. */
  lemma RowsFit(kind: Kind, d: Data, l: Layout)
    requires Complete(d) && d.ids == PointIds(d.points)
    requires forall p :: p in d.points ==> CellFits(l, Column(kind, d, p))
    ensures forall r :: r in RowsOf(kind, d, d.points) ==> Digits(r.id) && CellFits(l, r.cell)
  {
    var rows := RowsOf(kind, d, d.points);
    RowsOfAt(kind, d, d.points);
    forall r | r in rows
      ensures Digits(r.id) && CellFits(l, r.cell)
    {
      var k :| 0 <= k < |rows| && rows[k] == r;
      assert d.points[k] in d.points;
      PointIdsCover(d.points);
      var j :| 0 <= j < |d.points| && d.points[j] == d.points[k] && d.ids[d.points[k]] == Decimal(j + 1);
    }
  }

  /** A block in its report: row k shows the id and the column of point k, and the reader stops where the block ends. */
  lemma BlockReadsBack(kind: Kind, d: Data, l: Layout, after: string, rest: string)
    requires Complete(d) && d.ids == PointIds(d.points) && Readable(l) && Diverge(after, l.pre)
    requires forall p :: p in d.points ==> CellFits(l, Column(kind, d, p))
    ensures ReadRows(l, BlockMeaning(kind, d, Body(kind, l), d.points) + (after + rest))
            == (RowsOf(kind, d, d.points), after + rest)
  {
    BlockIsRowsText(kind, d, l, d.points, after + rest);
    RowsFit(kind, d, l);
    NoRowAhead(l, after, rest);
    ReadRowsOfText(l, RowsOf(kind, d, d.points), after + rest);
  }

  // ---------- reading a whole report ----------

  /** A part of a template: anything, then a fixed text by which the block behind it is found. */
  datatype Section = Section(lead: seq<Tok>, begin: string, kind: Kind, layout: Layout)

  function SectionItems(c: Section): seq<Item> {
    Ones(c.lead) + [One(Txt(c.begin)), Block(c.kind, Body(c.kind, c.layout))]
  }

  function Items(sections: seq<Section>, tail: seq<Tok>): seq<Item> {
    if sections == [] then Ones(tail) else SectionItems(sections[0]) + Items(sections[1..], tail)
  }

  /** The rows of all blocks, found by the texts in front of them; None when one is missing. */
  function ReadReport(sections: seq<Section>, s: string): Option<seq<seq<Row>>> {
    if sections == [] then Some([])
    else match UpTo(s, sections[0].begin)
      case None => None
      case Some((_, block)) =>
        var (rows, rest) := ReadRows(sections[0].layout, block);
        match ReadReport(sections[1..], rest)
        case None => None
        case Some(more) => Some([rows] + more)
  }

  /** How a block is spelled in the template file. */
  lemma BlocksAreSpelled(l: Layout)
    ensures Source([Block(PointBlock, Body(PointBlock, l))])
            == "@point-start@" + (l.pre + ("@point-id@" + (l.mid + ("@point-name@" + (l.post + "@point-end@")))))
    ensures Source([Block(ValueBlock, Body(ValueBlock, l))])
            == "@value-start@" + (l.pre + ("@point-id@" + (l.mid + ("@value@" + (l.post + "@value-end@")))))
  {
    hide Source, Render, Body;
    BlockIsSpelled(PointBlock, l);
    BlockIsSpelled(ValueBlock, l);
    MarkersAreSpelled();
  }

  lemma BlockIsSpelled(kind: Kind, l: Layout)
    ensures Source([Block(kind, Body(kind, l))])
            == Marker(OpenName(kind))
               + (l.pre + (Marker("point-id")
                           + (l.mid + (Marker(ColumnName(kind)) + (l.post + Marker(CloseName(kind)))))))
  {
    hide Source, Render, Marker;
    var block := Block(kind, Body(kind, l));
    assert [block] + [] == [block];
    SourceOfFirst(block, []);
    var id, column := Var("point-id"), Var(ColumnName(kind));
    RenderCons(Txt(l.post), []);
    RenderCons(column, [Txt(l.post)]);
    assert [column] + [Txt(l.post)] == [column, Txt(l.post)];
    RenderCons(Txt(l.mid), [column, Txt(l.post)]);
    assert [Txt(l.mid)] + [column, Txt(l.post)] == [Txt(l.mid), column, Txt(l.post)];
    RenderCons(id, [Txt(l.mid), column, Txt(l.post)]);
    assert [id] + [Txt(l.mid), column, Txt(l.post)] == [id, Txt(l.mid), column, Txt(l.post)];
    RenderCons(Txt(l.pre), [id, Txt(l.mid), column, Txt(l.post)]);
    assert [Txt(l.pre)] + [id, Txt(l.mid), column, Txt(l.post)] == Body(kind, l);
    NoItemsNoText();
    RegroupBlock(l, Marker("point-id"), Marker(ColumnName(kind)), Marker(CloseName(kind)));
  }

  lemma NoItemsNoText()
    ensures Source([]) == ""
  {
  }

  lemma RegroupBlock(l: Layout, id: string, column: string, close: string)
    ensures (l.pre + (id + (l.mid + (column + l.post)))) + (close + "")
            == l.pre + (id + (l.mid + (column + (l.post + close))))
  {
  }

  lemma MarkersAreSpelled()
    ensures Marker(OpenName(PointBlock)) == "@point-start@" && Marker(CloseName(PointBlock)) == "@point-end@"
    ensures Marker(OpenName(ValueBlock)) == "@value-start@" && Marker(CloseName(ValueBlock)) == "@value-end@"
    ensures Marker("point-id") == "@point-id@"
    ensures Marker(ColumnName(PointBlock)) == "@point-name@" && Marker(ColumnName(ValueBlock)) == "@value@"
  {
  }

  /** The text from the end of one block to the begin of the next, or to the end. */
  function TextBefore(sections: seq<Section>, tail: seq<Tok>, d: Data): string {
    if sections == [] then Meaning(tail, Globals(d))
    else Meaning(sections[0].lead, Globals(d)) + sections[0].begin
  }

  /** The begin of every block can be found, its cells can be read, and its rows can be told from what follows. */
  predicate Findable(sections: seq<Section>, tail: seq<Tok>, d: Data)
    requires Complete(d)
  {
    sections != [] ==>
      && sections[0].begin != "" && Anchored(Meaning(sections[0].lead, Globals(d)), sections[0].begin)
      && Readable(sections[0].layout)
      && (forall p :: p in d.points ==> CellFits(sections[0].layout, Column(sections[0].kind, d, p)))
      && Diverge(TextBefore(sections[1..], tail, d), sections[0].layout.pre)
      && Findable(sections[1..], tail, d)
  }

  /** Blocks of one kind look alike. */
  ghost predicate OneLayoutPerKind(sections: seq<Section>) {
    forall i, j :: 0 <= i < |sections| && 0 <= j < |sections| && sections[i].kind == sections[j].kind ==>
      sections[i].layout == sections[j].layout
  }

  lemma ReportOfFirst(i: Item, rest: seq<Item>, d: Data)
    requires Complete(d)
    ensures OwnReport([i] + rest, d) == (match i
                                         case One(t) => Meaning([t], Globals(d))
                                         case Block(kind, body) => BlockMeaning(kind, d, body, d.points))
                                           + OwnReport(rest, d)
  {
    assert ([i] + rest)[1..] == rest;
  }

  lemma {:induction false} OnesReport(toks: seq<Tok>, items: seq<Item>, d: Data)
    requires Complete(d)
    ensures OwnReport(Ones(toks) + items, d) == Meaning(toks, Globals(d)) + OwnReport(items, d)
  {
    hide OwnReport;
    if toks == [] {
      assert Ones(toks) + items == items;
    } else {
      assert Ones(toks) + items == [One(toks[0])] + (Ones(toks[1..]) + items);
      ReportOfFirst(One(toks[0]), Ones(toks[1..]) + items, d);
      OnesReport(toks[1..], items, d);
      MeaningFirst(toks, Globals(d));
    }
  }

  lemma MeaningFirst(toks: seq<Tok>, env: map<string, string>)
    requires toks != []
    ensures Meaning(toks, env) == Meaning([toks[0]], env) + Meaning(toks[1..], env)
  {
    assert [toks[0]][1..] == [];
  }

  lemma MeaningOfText(s: string, env: map<string, string>)
    ensures Meaning([Txt(s)], env) == s
  {
    assert [Txt(s)][1..] == [];
  }

  /** The report of a section: what leads to the block, the begin, the rows. */
  lemma SectionReport(c: Section, more: seq<Item>, d: Data)
    requires Complete(d)
    ensures OwnReport(SectionItems(c) + more, d)
            == Meaning(c.lead, Globals(d))
               + (c.begin + (BlockMeaning(c.kind, d, Body(c.kind, c.layout), d.points) + OwnReport(more, d)))
  {
    hide OwnReport, Meaning, BlockMeaning;
    var begin, block := One(Txt(c.begin)), Block(c.kind, Body(c.kind, c.layout));
    assert SectionItems(c) + more == Ones(c.lead) + ([begin] + ([block] + more));
    OnesReport(c.lead, [begin] + ([block] + more), d);
    ReportOfFirst(begin, [block] + more, d);
    ReportOfFirst(block, more, d);
    MeaningOfText(c.begin, Globals(d));
  }

  /** The report begins with the text before its first block. */
  lemma ReportBegins(sections: seq<Section>, tail: seq<Tok>, d: Data) returns (rest: string)
    requires Complete(d)
    ensures OwnReport(Items(sections, tail), d) == TextBefore(sections, tail, d) + rest
  {
    hide Meaning, BlockMeaning;
    if sections == [] {
      OnesReport(tail, [], d);
      assert Ones(tail) + [] == Ones(tail);
      rest := "";
    } else {
      var c, more := sections[0], Items(sections[1..], tail);
      SectionReport(c, more, d);
      rest := BlockMeaning(c.kind, d, Body(c.kind, c.layout), d.points) + OwnReport(more, d);
    }
  }

  function AllRows(sections: seq<Section>, d: Data): seq<seq<Row>>
    requires Complete(d)
  {
    if sections == [] then [] else [RowsOf(sections[0].kind, d, d.points)] + AllRows(sections[1..], d)
  }

  lemma {:induction false} OwnReportReadsBack(sections: seq<Section>, tail: seq<Tok>, d: Data)
    requires Complete(d) && d.ids == PointIds(d.points) && Findable(sections, tail, d)
    ensures ReadReport(sections, OwnReport(Items(sections, tail), d)) == Some(AllRows(sections, d))
  {
    if sections != [] {
      var c, more := sections[0], Items(sections[1..], tail);
      var block := BlockMeaning(c.kind, d, Body(c.kind, c.layout), d.points);
      OwnReportReadsBack(sections[1..], tail, d);
      SectionReport(c, more, d);
      UpToThen(Meaning(c.lead, Globals(d)), c.begin, block + OwnReport(more, d));
      var rest := ReportBegins(sections[1..], tail, d);
      BlockReadsBack(c.kind, d, c.layout, TextBefore(sections[1..], tail, d), rest);
    }
  }

  lemma {:induction false} BlocksAreSections(sections: seq<Section>, tail: seq<Tok>)
    ensures forall i :: i in Items(sections, tail) && i.Block? ==>
              exists k :: 0 <= k < |sections|
                && i == Block(sections[k].kind, Body(sections[k].kind, sections[k].layout))
  {
    if sections == [] {
      OnesHaveNoBlock(tail);
    } else {
      BlocksAreSections(sections[1..], tail);
      OnesHaveNoBlock(sections[0].lead);
      forall i | i in Items(sections, tail) && i.Block?
        ensures exists k :: 0 <= k < |sections|
                             && i == Block(sections[k].kind, Body(sections[k].kind, sections[k].layout))
      {
        if i in Items(sections[1..], tail) {
          var k :| 0 <= k < |sections[1..]|
            && i == Block(sections[1..][k].kind, Body(sections[1..][k].kind, sections[1..][k].layout));
          assert sections[1..][k] == sections[k + 1];
        } else {
          assert i in SectionItems(sections[0]);
          assert i == Block(sections[0].kind, Body(sections[0].kind, sections[0].layout));
        }
      }
    }
  }

  lemma {:induction false} OnesHaveNoBlock(toks: seq<Tok>)
    ensures forall i :: i in Ones(toks) ==> i.One?
  {
    if toks != [] {
      OnesHaveNoBlock(toks[1..]);
    }
  }

  lemma SectionsAreUniform(sections: seq<Section>, tail: seq<Tok>)
    requires OneLayoutPerKind(sections)
    ensures UniformBlocks(Items(sections, tail))
  {
    BlocksAreSections(sections, tail);
  }

  lemma {:induction false} AllRowsAt(sections: seq<Section>, d: Data)
    requires Complete(d)
    ensures |AllRows(sections, d)| == |sections|
    ensures forall j :: 0 <= j < |sections| ==> AllRows(sections, d)[j] == RowsOf(sections[j].kind, d, d.points)
  {
    if sections != [] {
      AllRowsAt(sections[1..], d);
    }
  }

  /** Row k has the id and the column of point k. */
  predicate ShowsPoints(rows: seq<Row>, kind: Kind, d: Data)
    requires Complete(d)
  {
    |rows| == |d.points| && forall k :: 0 <= k < |rows| ==>
        rows[k] == Row(d.ids[d.points[k]], Column(kind, d, d.points[k]))
  }

  lemma RowsShowPoints(kind: Kind, d: Data)
    requires Complete(d)
    ensures ShowsPoints(RowsOf(kind, d, d.points), kind, d)
  {
    RowsOfAt(kind, d, d.points);
  }

  lemma DataIsComplete(d: Data)
    requires CleanData(d)
    ensures Complete(d)
  {
  }

  /** Every block of the text that content() makes can be found and read back: row k shows point k. */
  lemma ReportReadsBack(sections: seq<Section>, tail: seq<Tok>, d: Data)
    requires WellFormed(Items(sections, tail)) && CleanData(d) && d.ids == PointIds(d.points)
    requires OneLayoutPerKind(sections) && Findable(sections, tail, d)
    ensures var read := ReadReport(sections, Content(Source(Items(sections, tail)), d));
            && read.Some? && |read.value| == |sections|
            && forall j :: 0 <= j < |sections| ==> ShowsPoints(read.value[j], sections[j].kind, d)
  {
    hide WellFormed, CleanData, Complete, Findable, OneLayoutPerKind, ShowsPoints, ReadReport, OwnReport,
         Content, Source, Items;
    DataIsComplete(d);
    SectionsAreUniform(sections, tail);
    UniformTemplatesExpandInPlace(Items(sections, tail), d);
    OwnReportReadsBack(sections, tail, d);
    AllRowsAt(sections, d);
    forall j | 0 <= j < |sections|
      ensures ShowsPoints(AllRows(sections, d)[j], sections[j].kind, d)
    {
      RowsShowPoints(sections[j].kind, d);
    }
  }

  /**
   The join a consumer of the report makes between any type block and any value block: wherever the ids
   agree, the value is the one measured under that very name. For distinct points the ids are 1, 2, ..., n in
   the order of the list.
   */
  lemma ValuesJoinTheirNames(sections: seq<Section>, tail: seq<Tok>, d: Data, types: nat, values: nat)
    requires WellFormed(Items(sections, tail)) && CleanData(d) && d.ids == PointIds(d.points)
    requires OneLayoutPerKind(sections) && Findable(sections, tail, d)
    requires types < |sections| && sections[types].kind.PointBlock? && values < |sections|
             && sections[values].kind.ValueBlock?
    ensures var read := ReadReport(sections, Content(Source(Items(sections, tail)), d));
            && read.Some? && |read.value| == |sections|
            && var (t, v) := (read.value[types], read.value[values]);
            && |t| == |v| == |d.points|
            && (forall j, k :: 0 <= j < |t| && 0 <= k < |v| && t[j].id == v[k].id ==>
                  t[j].cell in d.values && v[k].cell == d.values[t[j].cell])
            && (Distinct(d.points) ==> forall k :: 0 <= k < |t| ==> t[k].id == v[k].id == Decimal(k + 1))
  {
    hide WellFormed, CleanData, Findable, OneLayoutPerKind, ReadReport, Content, Source, Items;
    DataIsComplete(d);
    ReportReadsBack(sections, tail, d);
    var read := ReadReport(sections, Content(Source(Items(sections, tail)), d));
    RowsJoin(d, read.value[types], read.value[values]);
  }

  lemma RowsJoin(d: Data, t: seq<Row>, v: seq<Row>)
    requires Complete(d) && d.ids == PointIds(d.points) && |t| == |v| == |d.points|
    requires forall k :: 0 <= k < |t| ==> t[k] == Row(d.ids[d.points[k]], d.points[k])
    requires forall k :: 0 <= k < |v| ==> v[k] == Row(d.ids[d.points[k]], d.values[d.points[k]])
    ensures forall j, k :: 0 <= j < |t| && 0 <= k < |v| && t[j].id == v[k].id ==>
              t[j].cell in d.values && v[k].cell == d.values[t[j].cell]
    ensures Distinct(d.points) ==> forall k :: 0 <= k < |t| ==> t[k].id == v[k].id == Decimal(k + 1)
  {
    forall j, k | 0 <= j < |t| && 0 <= k < |v| && t[j].id == v[k].id
      ensures t[j].cell in d.values && v[k].cell == d.values[t[j].cell]
    {
      PointIdsAreUnique(d.points, d.points[j], d.points[k]);
    }
    if Distinct(d.points) {
      forall k | 0 <= k < |t|
        ensures t[k].id == v[k].id == Decimal(k + 1)
      {
        PointIdsAreDense(d.points, k);
      }
    }
  }
}
