/**
 Block substitution on arbitrary text: no assumption is made about '@' in the surrounding text, only
 that each delimiter is the first occurrence of itself. Since a marker begins and ends with '@', text
 that ends in all but the last character of a marker would overlap it.
 */
module MarkerText {
  import opened Strings
  import opened ReportTemplate

  /** The first occurrence of m in text + m is the one that follows the text. */
  predicate Anchored(text: string, m: string) {
    Find(text + m, m) == Some(|text|)
  }

  /** Text before a block, and the body of the block. */
  datatype RawBlock = RawBlock(text: string, body: string)

  function RawSource(blocks: seq<RawBlock>, open: string, close: string, tail: string): string {
    if blocks == [] then tail
    else blocks[0].text + (open + (blocks[0].body + (close + RawSource(blocks[1..], open, close, tail))))
  }

  function RawResult(blocks: seq<RawBlock>, rows: string, tail: string): string {
    if blocks == [] then tail
    else blocks[0].text + (rows + RawResult(blocks[1..], rows, tail))
  }

  lemma AnchoredIsQuiet(text: string, m: string, rest: string)
    requires m != "" && Anchored(text, m)
    ensures Quiet(text + (m + rest), |text|, m)
  {
    var s := text + (m + rest);
    FindsTheFirst(text + m, m);
    forall i: nat | i < |text|
      ensures !StartsWith(s[i..], m)
    {
      assert !StartsWith((text + m)[i..], m);
      assert s[i..][..|m|] == (text + m)[i..][..|m|];
    }
  }

  lemma {:induction false} NothingToSubstitute(s: string, open: string, close: string, rows: string)
    requires open != "" && Search(s, open, close).None?
    ensures Sub(s, open, close, rows) == s
    decreases |s|
  {
    if s != "" {
      NothingToSubstitute(s[1..], open, close, rows);
    }
  }

  /** The result is t0 R t1 R ... R tk: blocks are replaced, the text around them is kept in order. */
  lemma {:induction false} BlocksReplacedTextKept(blocks: seq<RawBlock>, open: string, close: string, rows: string,
                                                  tail: string)
    requires open != "" && close != ""
    requires forall b :: b in blocks ==> Anchored(b.text, open) && Anchored(b.body, close)
    requires Search(tail, open, close).None?
    ensures Sub(RawSource(blocks, open, close, tail), open, close, rows) == RawResult(blocks, rows, tail)
  {
    if blocks == [] {
      NothingToSubstitute(tail, open, close, rows);
    } else {
      var b, rest := blocks[0], RawSource(blocks[1..], open, close, tail);
      assert b in blocks;
      BlocksReplacedTextKept(blocks[1..], open, close, rows, tail);
      var inner := b.body + (close + rest);
      AnchoredIsQuiet(b.text, open, inner);
      SubSkips(b.text, open + inner, open, close, rows);
      AnchoredIsQuiet(b.body, close, rest);
      FindSkips(b.body, close, rest);
      SubOfBlock(open, b.body, close, rest, rows);
    }
  }

  predicate EndsWith(s: string, suffix: string) {
    |suffix| <= |s| && s[|s| - |suffix|..] == suffix
  }

  /**
   The only way a marker can overlap its own next occurrence is in one '@', so a delimiter is anchored
   exactly when the text before it neither contains it nor ends in the delimiter without its last '@'.
   */
  lemma AnchoredIffNoOverlap(text: string, name: string)
    requires IsName(name)
    ensures Anchored(text, Marker(name)) <==> Find(text, Marker(name)).None? && !EndsWith(text, "@" + name)
  {
    hide Find, EndsWith, StartsWith;
    if Find(text, Marker(name)).Some? {
      ContainedIsNotAnchored(text, Marker(name));
    } else if EndsWith(text, "@" + name) {
      OverlapIsNotAnchored(text, name);
    } else {
      NoOverlapIsAnchored(text, name);
    }
  }

  lemma ContainedIsNotAnchored(text: string, m: string)
    requires Find(text, m).Some? && m != ""
    ensures !Anchored(text, m)
  {
    var i, s := Find(text, m).value, text + m;
    FoundIsPrefix(text, m);
    assert s[i..i + |m|] == text[i..i + |m|];
    FoundEarlier(s, m, |text|, i, text[i..i + |m|]);
  }

  lemma OverlapIsNotAnchored(text: string, name: string)
    requires EndsWith(text, "@" + name)
    ensures !Anchored(text, Marker(name))
  {
    var i, m, s := |text| - |name| - 1, Marker(name), text + Marker(name);
    assert text[i..] == "@" + name;
    assert s[i..i + |m|] == text[i..] + m[..1];
    FoundEarlier(s, m, |text|, i, text[i..] + "@");
  }

  lemma NoOverlapIsAnchored(text: string, name: string)
    requires IsName(name) && Find(text, Marker(name)).None? && !EndsWith(text, "@" + name)
    ensures Anchored(text, Marker(name))
  {
    hide Find, EndsWith, IsName;
    var m, s := Marker(name), text + Marker(name);
    assert s[|text|..] == m;
    forall i: nat | i < |text|
      ensures !StartsWith(s[i..], m)
    {
      if StartsWith(s[i..], m) {
        OverlapIsOneCharacter(text, name, i);
      }
    }
    FindIs(s, m, |text|);
  }

  lemma FoundEarlier(s: string, m: string, end: nat, i: nat, piece: string)
    requires i < end <= |s| && i + |m| <= |s| && piece == m == s[i..i + |m|]
    ensures Find(s, m) != Some(end)
  {
    FindsTheFirst(s, m);
    assert s[i..][..|m|] == s[i..i + |m|];
    assert StartsWith(s[i..], m);
  }

  lemma OverlapIsOneCharacter(text: string, name: string, i: nat)
    requires IsName(name) && i < |text| && StartsWith((text + Marker(name))[i..], Marker(name))
    ensures Find(text, Marker(name)).Some? || EndsWith(text, "@" + name)
  {
    var m, s := Marker(name), text + Marker(name);
    NamesHaveNoAt(name);
    var last := i + |m| - 1;
    assert s[last] == s[i..][|m| - 1] == m[|m| - 1] == '@';
    if last < |text| {
      FindsTheFirst(text, m);
      assert text[i..][..|m|] == s[i..][..|m|];
      assert StartsWith(text[i..], m);
    } else {
      assert last == |text|;
      assert text[i..] == s[i..][..|m| - 1] == m[..|m| - 1] == "@" + name;
    }
  }
}
