/** The string operations the generators and parsers rely on, and decimal numerals. */
module Strings {

  datatype Option<+T> = None | Some(value: T)

  predicate StartsWith(s: string, prefix: string) {
    prefix <= s
  }

  predicate Without(s: string, c: char) {
    c !in s
  }

  /** What it means that r is where m first occurs in s, or that it does not. */
  ghost predicate IsFirst(s: string, m: string, r: Option<nat>) {
    match r
    case Some(i) => i + |m| <= |s| && s[i..i + |m|] == m && forall k: nat :: k < i ==> !StartsWith(s[k..], m)
    case None => forall k: nat :: k <= |s| ==> !StartsWith(s[k..], m)
  }

  lemma FirstOfTail(s: string, m: string, r: Option<nat>)
    requires s != "" && !StartsWith(s, m) && IsFirst(s[1..], m, r)
    ensures IsFirst(s, m, if r.Some? then Some(r.value + 1) else None)
  {
    var to := if r.Some? then r.value + 1 else |s| + 1;
    forall k: nat | k < to
      ensures !StartsWith(s[k..], m)
    {
      if k == 0 {
        assert s[0..] == s;
      } else {
        assert s[k..] == s[1..][k - 1..];
      }
    }
    if r.Some? {
      assert s[r.value + 1..r.value + 1 + |m|] == s[1..][r.value..r.value + |m|];
    }
  }

  lemma FirstAtStart(s: string, m: string)
    requires StartsWith(s, m)
    ensures IsFirst(s, m, Some(0))
  {
    assert s[0..|m|] == m;
  }

  /** The position of the first occurrence of m in s. */
  function Find(s: string, m: string): (r: Option<nat>)
    ensures r.Some? ==> r.value + |m| <= |s|
    decreases |s|
  {
    if StartsWith(s, m) then Some(0)
    else if s == "" then None
    else
      var r := Find(s[1..], m);
      if r.Some? then Some(r.value + 1) else None
  }

  lemma {:induction false} FindsTheFirst(s: string, m: string)
    ensures IsFirst(s, m, Find(s, m))
    decreases |s|
  {
    if StartsWith(s, m) {
      FirstAtStart(s, m);
    } else if s != "" {
      FindsTheFirst(s[1..], m);
      FirstOfTail(s, m, Find(s[1..], m));
    } else {
      assert forall k: nat :: k <= |s| ==> s[k..] == s;
    }
  }

  /** Find is the only answer. */
  lemma FindIs(s: string, m: string, i: nat)
    requires i <= |s| && StartsWith(s[i..], m) && forall k: nat :: k < i ==> !StartsWith(s[k..], m)
    ensures Find(s, m) == Some(i)
  {
    FindsTheFirst(s, m);
    var r := Find(s, m);
    if r.Some? {
      assert s[r.value..][..|m|] == s[r.value..r.value + |m|];
      assert StartsWith(s[r.value..], m);
    }
  }

  lemma FoundIsPrefix(s: string, m: string)
    requires Find(s, m).Some?
    ensures var i := Find(s, m).value; s[i..i + |m|] == m && StartsWith(s[i..], m)
  {
    FindsTheFirst(s, m);
    var i := Find(s, m).value;
    assert s[i..][..|m|] == s[i..i + |m|];
  }

  /** str.replace: leftmost, non-overlapping. */
  function Replace(s: string, pattern: string, value: string): string
    requires pattern != ""
    decreases |s|
  {
    if StartsWith(s, pattern) then value + Replace(s[|pattern|..], pattern, value)
    else if s == "" then ""
    else [s[0]] + Replace(s[1..], pattern, value)
  }

  function Concat(parts: seq<string>): string {
    if parts == [] then "" else parts[0] + Concat(parts[1..])
  }

  lemma {:induction false} ConcatAppend(a: seq<string>, b: seq<string>)
    ensures Concat(a + b) == Concat(a) + Concat(b)
  {
    if a == [] {
      assert a + b == b;
    } else {
      assert (a + b)[1..] == a[1..] + b;
      ConcatAppend(a[1..], b);
    }
  }

  // ---------- decimal numerals ----------

  function Digit(d: nat): char
    requires d < 10
  {
    '0' + d as char
  }

  predicate IsDigit(c: char) {
    '0' <= c <= '9'
  }

  predicate Digits(s: string) {
    forall c :: c in s ==> IsDigit(c)
  }

  /** str(n) */
  function Decimal(n: nat): (s: string)
    ensures s != "" && Digits(s)
  {
    if n < 10 then [Digit(n)] else Decimal(n / 10) + [Digit(n % 10)]
  }

  /** int(s) */
  function Number(s: string): nat
    requires Digits(s)
  {
    if s == "" then 0
    else
      assert forall c :: c in s[..|s|-1] ==> c in s;
      assert s[|s|-1] in s;
      10 * Number(s[..|s|-1]) + (s[|s|-1] - '0') as nat
  }

  lemma {:induction false} NumberOfDecimal(n: nat)
    ensures Number(Decimal(n)) == n
  {
    var s := Decimal(n);
    if n >= 10 {
      NumberOfDecimal(n / 10);
      assert s[..|s|-1] == Decimal(n / 10);
    } else {
      assert s[..|s|-1] == "";
    }
  }

  lemma DecimalIsInjective(m: nat, n: nat)
    requires Decimal(m) == Decimal(n)
    ensures m == n
  {
    NumberOfDecimal(m);
    NumberOfDecimal(n);
  }

  /** One of the texts begins with the other. */
  predicate Comparable(s: string, t: string) {
    s <= t || t <= s
  }

  lemma PrefixesCompare(s: string, s': string, t: string, t': string)
    requires s + s' == t + t'
    ensures Comparable(s, t)
  {
    if |s| <= |t| {
      assert s == (s + s')[..|s|] == (t + t')[..|s|] == t[..|s|];
    } else {
      assert t == (t + t')[..|t|] == (s + s')[..|t|] == s[..|t|];
    }
  }

  lemma BeginsLike(s: string, rest: string, m: string)
    requires StartsWith(s + rest, m)
    ensures Comparable(s, m)
  {
    PrefixesCompare(s, rest, m, (s + rest)[|m|..]);
  }
}
