/** The small text formats of the simulator: ISO 8601 durations, PEM bodies, certificate fingerprints. */
module TextFormats {
  import opened Strings

  // ---------- durations (section 4.4.3.2 of ISO 8601:2004) ----------

  datatype Duration = Duration(days: nat, hours: nat, minutes: nat, seconds: nat)

  predicate Normal(d: Duration) {
    d.hours < 24 && d.minutes < 60 && d.seconds < 60
  }

  function TotalSeconds(d: Duration): nat {
    ((d.days * 24 + d.hours) * 60 + d.minutes) * 60 + d.seconds
  }

  /** A component is written only when it is positive. */
  function Component(n: nat, unit: char): string {
    if n > 0 then Decimal(n) + [unit] else ""
  }

  predicate HasTime(d: Duration) {
    d.hours > 0 || d.minutes > 0 || d.seconds > 0
  }

  function Show(d: Duration): string {
    var date := "P" + Component(d.days, 'D');
    if HasTime(d) then date + "T" + Component(d.hours, 'H') + Component(d.minutes, 'M') + Component(d.seconds, 'S')
    else date
  }

  /** The divmod cascade. */
  function Split(total: nat): Duration {
    Duration(total / 86400, total % 86400 / 3600, total % 86400 % 3600 / 60, total % 86400 % 3600 % 60)
  }

  /** seconds_to_duration */
  method SecondsToDuration(total: nat) returns (duration: string)
    ensures duration == Show(Split(total))
    ensures ParseDuration(duration) == Some(total)
  {
    var days, seconds := total / 86400, total % 86400;
    var hours := seconds / 3600;
    seconds := seconds % 3600;
    var minutes := seconds / 60;
    seconds := seconds % 60;
    duration := "P";
    if days > 0 {
      duration := duration + (Decimal(days) + "D");
    }
    ghost var date := "P" + Component(days, 'D');
    assert duration == date;
    if hours > 0 || minutes > 0 || seconds > 0 {
      duration := duration + "T";
      if hours > 0 {
        duration := duration + (Decimal(hours) + "H");
      }
      ghost var toHours := date + "T" + Component(hours, 'H');
      assert duration == toHours;
      if minutes > 0 {
        duration := duration + (Decimal(minutes) + "M");
      }
      ghost var toMinutes := toHours + Component(minutes, 'M');
      assert duration == toMinutes;
      if seconds > 0 {
        duration := duration + (Decimal(seconds) + "S");
      }
      assert duration == toMinutes + Component(seconds, 'S');
    }
    DurationRoundTrip(total);
  }

  /** The components are in range and add up to the number of seconds. */
  lemma SplitIsNormal(total: nat)
    ensures Normal(Split(total)) && TotalSeconds(Split(total)) == total
  {
  }

  /** Splits the leading digits off. */
  function Leading(s: string): (r: (string, string))
    ensures Digits(r.0) && s == r.0 + r.1
    ensures r.1 == "" || !IsDigit(r.1[0])
  {
    if s != "" && IsDigit(s[0]) then
      var (ds, rest) := Leading(s[1..]);
      ([s[0]] + ds, rest)
    else ("", s)
  }

  /** Reads "n unit" if it is there; otherwise the component is zero and nothing is read. */
  function ReadComponent(s: string, unit: char): (nat, string) {
    var (ds, rest) := Leading(s);
    if ds != "" && rest != "" && rest[0] == unit then (Number(ds), rest[1..]) else (0, s)
  }

  /** Reads what follows the time designator. */
  function ParseTime(s: string): Option<(nat, nat, nat)> {
    var (hours, s1) := ReadComponent(s, 'H');
    var (minutes, s2) := ReadComponent(s1, 'M');
    var (seconds, s3) := ReadComponent(s2, 'S');
    if s3 == "" then Some((hours, minutes, seconds)) else None
  }

  function ParseRest(days: nat, time: string): Option<nat> {
    if time == "" then Some(TotalSeconds(Duration(days, 0, 0, 0)))
    else if time[0] != 'T' then None
    else match ParseTime(time[1..])
      case None => None
      case Some((h, m, s)) => Some(TotalSeconds(Duration(days, h, m, s)))
  }

  /** A reader for the durations the program writes; any of the components may be missing. */
  function ParseDuration(s: string): Option<nat> {
    if s == "" || s[0] != 'P' then None else
    var (days, time) := ReadComponent(s[1..], 'D');
    ParseRest(days, time)
  }

  lemma {:induction false} LeadingOf(ds: string, rest: string)
    requires Digits(ds) && (rest == "" || !IsDigit(rest[0]))
    ensures Leading(ds + rest) == (ds, rest)
  {
    if ds == "" {
      assert ds + rest == rest;
    } else {
      assert ds[0] in ds && forall c :: c in ds[1..] ==> c in ds;
      assert (ds + rest)[1..] == ds[1..] + rest && (ds + rest)[0] == ds[0];
      LeadingOf(ds[1..], rest);
      assert [ds[0]] + ds[1..] == ds;
    }
  }

  /** What can follow a component: the end, the time designator, or a component of another unit. */
  predicate Follows(rest: string, unit: char) {
    rest == "" || rest[0] == 'T' || (IsDigit(rest[0]) && Leading(rest).1 != "" && Leading(rest).1[0] != unit)
  }

  lemma ComponentReadsBack(n: nat, unit: char, rest: string)
    requires !IsDigit(unit) && unit != 'T' && Follows(rest, unit)
    ensures ReadComponent(Component(n, unit) + rest, unit) == (n, rest)
  {
    hide Decimal, Number;
    if n > 0 {
      LeadingOf(Decimal(n), [unit] + rest);
      assert Component(n, unit) + rest == Decimal(n) + ([unit] + rest);
      NumberOfDecimal(n);
    } else {
      assert Component(n, unit) + rest == rest;
    }
  }

  lemma ComponentFollows(n: nat, unit: char, rest: string, before: char)
    requires !IsDigit(unit) && unit != before && Follows(rest, before)
    ensures Follows(Component(n, unit) + rest, before)
  {
    hide Decimal, Leading;
    if n > 0 {
      LeadingOf(Decimal(n), [unit] + rest);
      assert Component(n, unit) + rest == Decimal(n) + ([unit] + rest);
      assert Decimal(n)[0] in Decimal(n);
    } else {
      assert Component(n, unit) + rest == rest;
    }
  }

  lemma TimeRoundTrip(h: nat, m: nat, s: nat)
    ensures ParseTime(Component(h, 'H') + (Component(m, 'M') + Component(s, 'S'))) == Some((h, m, s))
  {
    var seconds, minutes := Component(s, 'S'), Component(m, 'M');
    assert seconds + "" == seconds;
    ComponentFollows(s, 'S', "", 'M');
    ComponentFollows(s, 'S', "", 'H');
    ComponentFollows(m, 'M', seconds, 'H');
    ComponentReadsBack(s, 'S', "");
    ComponentReadsBack(m, 'M', seconds);
    ComponentReadsBack(h, 'H', minutes + seconds);
  }

  /** The same text with the leading parts split off. */
  lemma Nested(d: Duration)
    ensures var clock := Component(d.hours, 'H') + (Component(d.minutes, 'M') + Component(d.seconds, 'S'));
            Show(d) == "P" + (Component(d.days, 'D') + (if HasTime(d) then "T" + clock else ""))
  {
    var h, m, s := Component(d.hours, 'H'), Component(d.minutes, 'M'), Component(d.seconds, 'S');
    var date := "P" + Component(d.days, 'D');
    assert date + "T" + h + m + s == date + ("T" + (h + (m + s)));
  }

  lemma RestReadsBack(d: Duration, clock: string)
    requires clock == Component(d.hours, 'H') + (Component(d.minutes, 'M') + Component(d.seconds, 'S'))
    ensures ParseRest(d.days, if HasTime(d) then "T" + clock else "") == Some(TotalSeconds(d))
  {
    TimeRoundTrip(d.hours, d.minutes, d.seconds);
    assert ("T" + clock)[1..] == clock;
  }

  lemma DateReadsBack(days: nat, time: string)
    requires time == "" || time[0] == 'T'
    ensures ParseDuration("P" + (Component(days, 'D') + time)) == ParseRest(days, time)
  {
    ComponentReadsBack(days, 'D', time);
    assert ("P" + (Component(days, 'D') + time))[1..] == Component(days, 'D') + time;
  }

  lemma ShowReadsBack(d: Duration)
    ensures ParseDuration(Show(d)) == Some(TotalSeconds(d))
  {
    var clock := Component(d.hours, 'H') + (Component(d.minutes, 'M') + Component(d.seconds, 'S'));
    Nested(d);
    RestReadsBack(d, clock);
    DateReadsBack(d.days, if HasTime(d) then "T" + clock else "");
  }

  /** Reading a printed number of seconds gives it back; zero prints as "P". */
  lemma DurationRoundTrip(total: nat)
    ensures ParseDuration(Show(Split(total))) == Some(total)
    ensures Show(Split(0)) == "P"
  {
    ShowReadsBack(Split(total));
    SplitIsNormal(total);
  }

  lemma ShowHasNoAt(d: Duration)
    ensures '@' !in Show(d)
  {
    assert forall n: nat :: '@' !in Decimal(n);
  }

  // ---------- splitting and joining ----------

  /** s.split(c): never empty, and no part contains c. */
  function SplitAt(s: string, c: char): (parts: seq<string>)
    ensures parts != []
  {
    if s == "" then [""]
    else if s[0] == c then [""] + SplitAt(s[1..], c)
    else
      var rest := SplitAt(s[1..], c);
      [[s[0]] + rest[0]] + rest[1..]
  }

  /** [c].join(parts) */
  function Join(parts: seq<string>, c: char): string {
    if parts == [] then ""
    else if |parts| == 1 then parts[0]
    else parts[0] + [c] + Join(parts[1..], c)
  }

  lemma {:induction false} JoinSplit(s: string, c: char)
    ensures Join(SplitAt(s, c), c) == s
  {
    if s != "" {
      JoinSplit(s[1..], c);
      var rest := SplitAt(s[1..], c);
      assert [s[0]] + s[1..] == s;
      if s[0] == c {
        assert ([""] + rest)[1..] == rest;
      } else {
        assert ([[s[0]] + rest[0]] + rest[1..])[1..] == rest[1..];
      }
    }
  }

  lemma {:induction false} SplitOfJoined(a: string, b: string, c: char)
    ensures SplitAt(a + [c] + b, c) == SplitAt(a, c) + SplitAt(b, c)
  {
    var s := a + [c] + b;
    if a == "" {
      assert s[1..] == b;
    } else {
      assert s[1..] == a[1..] + [c] + b && s[0] == a[0];
      SplitOfJoined(a[1..], b, c);
      var rest := SplitAt(a[1..], c);
      if a[0] == c {
        assert [""] + (rest + SplitAt(b, c)) == ([""] + rest) + SplitAt(b, c);
      } else {
        assert [[a[0]] + rest[0]] + (rest + SplitAt(b, c))[1..] == ([[a[0]] + rest[0]] + rest[1..]) + SplitAt(b, c);
      }
    }
  }

  lemma {:induction false} SplitOfPlain(s: string, c: char)
    requires c !in s
    ensures SplitAt(s, c) == [s]
  {
    if s != "" {
      SplitOfPlain(s[1..], c);
      assert [s[0]] + s[1..] == s;
    }
  }

  // ---------- PEM bodies (section 3 of RFC 7468) ----------

  /** lines[1:-2] */
  function InnerLines(lines: seq<string>): seq<string> {
    if |lines| < 3 then [] else lines[1..|lines|-2]
  }

  /** The text between the BEGIN and END lines, as the key and certificate getters compute it. */
  function StripMarkers(pem: string): string {
    Join(InnerLines(SplitAt(pem, '\n')), '\n')
  }

  function Pem(begin: string, body: string, end: string): string {
    begin + "\n" + (body + "\n" + (end + "\n" + ""))
  }

  lemma PemLines(begin: string, body: string, end: string)
    requires '\n' !in begin && '\n' !in end
    ensures SplitAt(Pem(begin, body, end), '\n') == [begin] + (SplitAt(body, '\n') + [end, ""])
  {
    SplitOfJoined(begin, body + "\n" + (end + "\n" + ""), '\n');
    SplitOfJoined(body, end + "\n" + "", '\n');
    SplitOfJoined(end, "", '\n');
    SplitOfPlain(begin, '\n');
    SplitOfPlain(end, '\n');
    assert [end] + [""] == [end, ""];
  }

  /** Any body, of one line or many, comes back unchanged. */
  lemma StripMarkersReturnsBody(begin: string, body: string, end: string)
    requires '\n' !in begin && '\n' !in end
    ensures StripMarkers(Pem(begin, body, end)) == body
  {
    PemLines(begin, body, end);
    var lines, inner := SplitAt(Pem(begin, body, end), '\n'), SplitAt(body, '\n');
    assert lines[1..|lines|-2] == inner;
    JoinSplit(body, '\n');
  }

  /**
   The getters rely on the final line break: without it the last line of the body is lost, and only an empty body
   survives.
   */
  lemma WithoutFinalBreakLastLineIsLost(begin: string, body: string, end: string)
    requires '\n' !in begin && '\n' !in end
    ensures var (inner, stripped) := (SplitAt(body, '\n'), StripMarkers(begin + "\n" + (body + "\n" + end)));
            stripped == Join(inner[..|inner|-1], '\n') && (stripped == body <==> body == "")
  {
    JoinSplit(body, '\n');
    DroppingTheLastShortens(SplitAt(body, '\n'), '\n');
    SplitOfJoined(begin, body + "\n" + end, '\n');
    SplitOfJoined(body, end, '\n');
    SplitOfPlain(begin, '\n');
    SplitOfPlain(end, '\n');
    InnerOfThree(begin, SplitAt(body, '\n'), end);
  }

  lemma {:induction false} DroppingTheLastShortens(parts: seq<string>, c: char)
    requires parts != []
    ensures |Join(parts[..|parts|-1], c)| < |Join(parts, c)| <==> parts != [""]
  {
    if |parts| > 1 {
      assert parts[1..][..|parts|-2] == parts[..|parts|-1][1..];
      DroppingTheLastShortens(parts[1..], c);
    }
  }

  lemma InnerOfThree(first: string, inner: seq<string>, last: string)
    requires inner != []
    ensures InnerLines([first] + (inner + [last])) == inner[..|inner|-1]
  {
    var lines := [first] + (inner + [last]);
    assert lines[1..|lines|-2] == inner[..|inner|-1];
  }

  // ---------- fingerprints ----------

  function HexDigit(d: nat): char
    requires d < 16
  {
    if d < 10 then '0' + d as char else 'A' + (d - 10) as char
  }

  function HexValue(c: char): Option<nat> {
    if '0' <= c <= '9' then Some((c - '0') as nat)
    else if 'A' <= c <= 'F' then Some((c - 'A') as nat + 10)
    else None
  }

  /** f"{byte:02X}" */
  function HexByte(b: nat): string
    requires b < 256
  {
    [HexDigit(b / 16), HexDigit(b % 16)]
  }

  predicate Bytes(bs: seq<nat>) {
    forall b :: b in bs ==> b < 256
  }

  function HexBytes(bs: seq<nat>): seq<string>
    requires Bytes(bs)
  {
    if bs == [] then []
    else
      assert bs[0] in bs && forall b :: b in bs[1..] ==> b in bs;
      [HexByte(bs[0])] + HexBytes(bs[1..])
  }

  /** The digest, preceded by the byte for SHA-1, in colon-separated hexadecimal. */
  function Fingerprint(digest: seq<nat>): string
    requires Bytes(digest)
  {
    Join(HexBytes([2] + digest), ':')
  }

  function DecodeByte(s: string): Option<nat> {
    if |s| == 2 && HexValue(s[0]).Some? && HexValue(s[1]).Some?
    then Some(16 * HexValue(s[0]).value + HexValue(s[1]).value) else None
  }

  function DecodeBytes(parts: seq<string>): Option<seq<nat>> {
    if parts == [] then Some([])
    else match (DecodeByte(parts[0]), DecodeBytes(parts[1..]))
      case (Some(b), Some(bs)) => Some([b] + bs)
      case _ => None
  }

  lemma HexByteRoundTrip(b: nat)
    requires b < 256
    ensures DecodeByte(HexByte(b)) == Some(b) && ':' !in HexByte(b)
  {
    assert HexDigit(b / 16) != ':' && HexDigit(b % 16) != ':';
  }

  lemma {:induction false} SplitOfHexBytes(bs: seq<nat>)
    requires Bytes(bs) && bs != []
    ensures SplitAt(Join(HexBytes(bs), ':'), ':') == HexBytes(bs)
    ensures DecodeBytes(HexBytes(bs)) == Some(bs)
  {
    assert bs[0] in bs;
    HexByteRoundTrip(bs[0]);
    SplitOfPlain(HexByte(bs[0]), ':');
    var hex := HexBytes(bs);
    if |bs| == 1 {
      var rest := bs[1..];
      assert rest == [] && HexBytes(rest) == [] && hex[1..] == [];
      assert bs == [bs[0]] + rest;
    } else {
      assert forall b :: b in bs[1..] ==> b in bs;
      SplitOfHexBytes(bs[1..]);
      assert hex[1..] == HexBytes(bs[1..]);
      SplitOfJoined(HexByte(bs[0]), Join(hex[1..], ':'), ':');
      assert [bs[0]] + bs[1..] == bs;
    }
  }

  /** The rendered fingerprint decodes to the algorithm byte followed by the digest. */
  lemma FingerprintRoundTrip(digest: seq<nat>)
    requires Bytes(digest)
    ensures DecodeBytes(SplitAt(Fingerprint(digest), ':')) == Some([2] + digest)
  {
    SplitOfHexBytes([2] + digest);
  }
}
