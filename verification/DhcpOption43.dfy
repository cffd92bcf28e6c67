/**
 The vendor-specific information a DHCP server offers (section 8.4 of RFC 2132): sub-options of a tag, a
 length and a value, and the settings the device takes from them.
 */
module DhcpOption43 {
  import opened Strings
  import TextFormats

  type Byte = b: int | 0 <= b < 256

  datatype SubOption = SubOption(tag: Byte, value: seq<Byte>)

  datatype Settings = Settings(controllerIp: Option<string>, controllerFqdn: Option<string>, callHomeTls: bool,
                               vesIp: Option<string>, vesFqdn: Option<string>)

  const CONTROLLER_IP: Byte := 0x81
  const CONTROLLER_FQDN: Byte := 0x82
  const VES_IP: Byte := 0x83
  const VES_FQDN: Byte := 0x84
  const CALL_HOME: Byte := 0x86

  // ---------- the format ----------

  predicate Encodable(o: SubOption) {
    |o.value| < 256
  }

  function Encode(o: SubOption): seq<Byte>
    requires Encodable(o)
  {
    [o.tag, |o.value|] + o.value
  }

  predicate AllEncodable(os: seq<SubOption>) {
    forall o :: o in os ==> Encodable(o)
  }

  function EncodeAll(os: seq<SubOption>): seq<Byte>
    requires AllEncodable(os)
  {
    if os == [] then [] else
    assert os[0] in os && forall o :: o in os[1..] ==> o in os;
    Encode(os[0]) + EncodeAll(os[1..])
  }

  /** Nothing more can be read: a header is missing, or its length reaches past the end. */
  predicate Stuck(bytes: seq<Byte>) {
    |bytes| < 2 || 2 + bytes[1] > |bytes|
  }

  /** The sub-options of the longest prefix that consists of complete ones, and what is left. */
  function Split(bytes: seq<Byte>): (seq<SubOption>, seq<Byte>)
    decreases |bytes|
  {
    if Stuck(bytes) then ([], bytes)
    else
      var (os, rest) := Split(bytes[2 + bytes[1]..]);
      ([SubOption(bytes[0], bytes[2..2 + bytes[1]])] + os, rest)
  }

  lemma SplitOfOne(o: SubOption, more: seq<Byte>)
    requires Encodable(o)
    ensures Split(Encode(o) + more) == ([o] + Split(more).0, Split(more).1)
  {
    var bytes := Encode(o) + more;
    assert bytes[1] == |o.value| && bytes[2..2 + |o.value|] == o.value && bytes[2 + |o.value|..] == more;
  }

  lemma SplitOfStuck(bytes: seq<Byte>)
    requires Stuck(bytes)
    ensures Split(bytes) == ([], bytes)
  {
  }

  /** Splitting is the inverse of encoding, whatever incomplete bytes follow. */
  lemma {:induction false} SplitOfEncoded(os: seq<SubOption>, rest: seq<Byte>)
    requires AllEncodable(os) && Stuck(rest)
    ensures Split(EncodeAll(os) + rest) == (os, rest)
    decreases |os|
  {
    hide Split, Encode;
    if os == [] {
      assert EncodeAll(os) + rest == rest;
      SplitOfStuck(rest);
    } else {
      assert os[0] in os && forall o :: o in os[1..] ==> o in os;
      SplitOfEncoded(os[1..], rest);
      SplitOfFirst(os[0], EncodeAll(os[1..]), rest);
      assert os == [os[0]] + os[1..];
    }
  }

  lemma SplitOfFirst(o: SubOption, encoded: seq<Byte>, rest: seq<Byte>)
    requires Encodable(o)
    ensures Split((Encode(o) + encoded) + rest) == ([o] + Split(encoded + rest).0, Split(encoded + rest).1)
  {
    SplitOfOne(o, encoded + rest);
    assert (Encode(o) + encoded) + rest == Encode(o) + (encoded + rest);
  }

  lemma FirstPrintsBack(bytes: seq<Byte>)
    requires !Stuck(bytes)
    ensures bytes == Encode(SubOption(bytes[0], bytes[2..2 + bytes[1]])) + bytes[2 + bytes[1]..]
  {
  }

  lemma EncodeAllFirst(o: SubOption, os: seq<SubOption>, rest: seq<Byte>)
    requires Encodable(o) && AllEncodable(os)
    ensures AllEncodable([o] + os) && EncodeAll([o] + os) + rest == Encode(o) + (EncodeAll(os) + rest)
  {
    assert ([o] + os)[1..] == os;
  }

  lemma {:induction false} SplitPrintsBack(bytes: seq<Byte>)
    ensures var (os, rest) := Split(bytes); AllEncodable(os) && Stuck(rest) && bytes == EncodeAll(os) + rest
    decreases |bytes|
  {
    hide Encode, EncodeAll, AllEncodable;
    if Stuck(bytes) {
      NothingEncoded(bytes);
    } else {
      var o, next := SubOption(bytes[0], bytes[2..2 + bytes[1]]), bytes[2 + bytes[1]..];
      SplitPrintsBack(next);
      FirstPrintsBack(bytes);
      EncodeAllFirst(o, Split(next).0, Split(next).1);
    }
  }

  lemma NothingEncoded(bytes: seq<Byte>)
    ensures AllEncodable([]) && EncodeAll([]) + bytes == bytes
  {
  }

  /** There is exactly one way to read a payload as complete sub-options followed by bytes that are not one. */
  lemma SplitIsTheOnlyReading(bytes: seq<Byte>, os: seq<SubOption>, rest: seq<Byte>)
    ensures Split(bytes) == (os, rest) <==> AllEncodable(os) && Stuck(rest) && bytes == EncodeAll(os) + rest
  {
    SplitPrintsBack(bytes);
    if AllEncodable(os) && Stuck(rest) && bytes == EncodeAll(os) + rest {
      SplitOfEncoded(os, rest);
    }
  }

  lemma {:induction false} EncodeAllAppend(a: seq<SubOption>, b: seq<SubOption>)
    requires AllEncodable(a) && AllEncodable(b)
    ensures AllEncodable(a + b) && EncodeAll(a + b) == EncodeAll(a) + EncodeAll(b)
    decreases |a|
  {
    if a == [] {
      assert a + b == b;
    } else {
      assert (a + b)[1..] == a[1..] + b;
      assert forall o :: o in a[1..] ==> o in a;
      EncodeAllAppend(a[1..], b);
    }
  }

  lemma SplitOfTwoReadings(os: seq<SubOption>, more: seq<SubOption>, rest: seq<Byte>, whole: seq<Byte>)
    requires AllEncodable(os) && AllEncodable(more) && Stuck(rest)
    requires whole == EncodeAll(os) + (EncodeAll(more) + rest)
    ensures Split(whole) == (os + more, rest)
  {
    EncodeAllAppend(os, more);
    assert whole == (EncodeAll(os) + EncodeAll(more)) + rest;
    SplitOfEncoded(os + more, rest);
  }

  /** After a prefix that is consumed completely, the rest is read as if it stood alone. */
  lemma SplitOfConcatenation(a: seq<Byte>, b: seq<Byte>)
    requires Split(a).1 == []
    ensures Split(a + b) == (Split(a).0 + Split(b).0, Split(b).1)
  {
    SplitPrintsBack(a);
    SplitPrintsBack(b);
    var os := Split(a).0;
    assert EncodeAll(os) + [] == EncodeAll(os);
    SplitOfTwoReadings(os, Split(b).0, Split(b).1, a + b);
  }

  // ---------- what the sub-options mean ----------

  function Numerals(bs: seq<Byte>): (r: seq<string>)
    ensures forall n :: n in r ==> Digits(n)
  {
    if bs == [] then [] else [Decimal(bs[0])] + Numerals(bs[1..])
  }

  function Dotted(bs: seq<Byte>): string {
    TextFormats.Join(Numerals(bs), '.')
  }

  function AddressOf(value: seq<Byte>): Option<string> {
    if |value| == 4 then Some(Dotted(value)) else None
  }

  predicate Ascii(value: seq<Byte>) {
    forall b :: b in value ==> b < 128
  }

  function Text(value: seq<Byte>): string
    requires Ascii(value)
  {
    if value == [] then "" else
    assert value[0] in value && forall b :: b in value[1..] ==> b in value;
    [value[0] as char] + Text(value[1..])
  }

  function NameOf(value: seq<Byte>): (r: Option<string>)
    ensures r.Some? <==> forall b :: b in value ==> b <= 0x7F
  {
    if Ascii(value) then Some(Text(value)) else None
  }

  function Apply(s: Settings, o: SubOption): Settings {
    if o.tag == CONTROLLER_IP then s.(controllerIp := AddressOf(o.value))
    else if o.tag == VES_IP then s.(vesIp := AddressOf(o.value))
    else if o.tag == CONTROLLER_FQDN then s.(controllerFqdn := NameOf(o.value))
    else if o.tag == VES_FQDN then s.(vesFqdn := NameOf(o.value))
    else if o.tag == CALL_HOME && (o.value == [0] || o.value == [1]) then s.(callHomeTls := o.value == [1])
    else s
  }

  function ApplyAll(s: Settings, os: seq<SubOption>): Settings
    decreases |os|
  {
    if os == [] then s else ApplyAll(Apply(s, os[0]), os[1..])
  }

  lemma {:induction false} ApplyInTwo(s: Settings, a: seq<SubOption>, b: seq<SubOption>)
    ensures ApplyAll(s, a + b) == ApplyAll(ApplyAll(s, a), b)
    decreases |a|
  {
    if a == [] {
      assert a + b == b;
    } else {
      assert (a + b)[1..] == a[1..] + b;
      ApplyInTwo(Apply(s, a[0]), a[1..], b);
    }
  }

  lemma FirstApplied(s: Settings, bytes: seq<Byte>)
    requires !Stuck(bytes)
    ensures ApplyAll(s, Split(bytes).0)
            == ApplyAll(Apply(s, SubOption(bytes[0], bytes[2..2 + bytes[1]])), Split(bytes[2 + bytes[1]..]).0)
  {
    assert Split(bytes).0[1..] == Split(bytes[2 + bytes[1]..]).0;
  }

  /** The value of the last sub-option with a tag. */
  function LastOf(os: seq<SubOption>, tag: Byte): Option<seq<Byte>> {
    if os == [] then None
    else if os[|os|-1].tag == tag then Some(os[|os|-1].value)
    else LastOf(os[..|os|-1], tag)
  }

  lemma OneDecides(s: Settings, o: SubOption)
    ensures var r := Apply(s, o);
            && r.controllerIp == (if o.tag == CONTROLLER_IP then AddressOf(o.value) else s.controllerIp)
            && r.vesIp == (if o.tag == VES_IP then AddressOf(o.value) else s.vesIp)
            && r.controllerFqdn == (if o.tag == CONTROLLER_FQDN then NameOf(o.value) else s.controllerFqdn)
            && r.vesFqdn == (if o.tag == VES_FQDN then NameOf(o.value) else s.vesFqdn)
  {
  }

  lemma OneMoreApplied(s: Settings, os: seq<SubOption>)
    requires os != []
    ensures ApplyAll(s, os) == Apply(ApplyAll(s, os[..|os|-1]), os[|os|-1])
  {
    var n := |os| - 1;
    assert os == os[..n] + [os[n]] && [os[n]][1..] == [];
    ApplyInTwo(s, os[..n], [os[n]]);
  }

  function AddressAfter(os: seq<SubOption>, tag: Byte, before: Option<string>): Option<string> {
    match LastOf(os, tag)
    case None => before
    case Some(value) => AddressOf(value)
  }

  function NameAfter(os: seq<SubOption>, tag: Byte, before: Option<string>): Option<string> {
    match LastOf(os, tag)
    case None => before
    case Some(value) => NameOf(value)
  }

  /** A malformed value still replaces an earlier good one: the last sub-option of a tag alone decides. */
  lemma {:induction false} LastOneDecides(s: Settings, os: seq<SubOption>)
    ensures var r := ApplyAll(s, os);
            && r.controllerIp == AddressAfter(os, CONTROLLER_IP, s.controllerIp)
            && r.vesIp == AddressAfter(os, VES_IP, s.vesIp)
            && r.controllerFqdn == NameAfter(os, CONTROLLER_FQDN, s.controllerFqdn)
            && r.vesFqdn == NameAfter(os, VES_FQDN, s.vesFqdn)
    decreases |os|
  {
    hide Apply, AddressOf, NameOf;
    if os != [] {
      LastOneDecides(s, os[..|os|-1]);
      OneMoreApplied(s, os);
      OneDecides(ApplyAll(s, os[..|os|-1]), os[|os|-1]);
    }
  }

  /** What an offer with all five kinds of sub-options says. */
  lemma OfferOfAll(s: Settings, ip: seq<Byte>, name: seq<Byte>, vesIp: seq<Byte>, vesName: seq<Byte>, tls: bool)
    requires |ip| == 4 && |vesIp| == 4 && Ascii(name) && Ascii(vesName)
    ensures ApplyAll(s, [SubOption(0x81, ip), SubOption(0x82, name), SubOption(0x83, vesIp), SubOption(0x84, vesName),
                         SubOption(0x86, [if tls then 1 else 0])])
            == Settings(Some(Dotted(ip)), Some(Text(name)), tls, Some(Dotted(vesIp)), Some(Text(vesName)))
  {
    hide Dotted, Text;
    var o1, o2, o3 := SubOption(0x81, ip), SubOption(0x82, name), SubOption(0x83, vesIp);
    var o4, o5 := SubOption(0x84, vesName), SubOption(0x86, [if tls then 1 else 0]);
    assert [o1, o2, o3, o4, o5][1..] == [o2, o3, o4, o5] && [o2, o3, o4, o5][1..] == [o3, o4, o5];
    assert [o3, o4, o5][1..] == [o4, o5] && [o4, o5][1..] == [o5] && [o5][1..] == [];
    var s1 := Apply(s, o1);
    var s2 := Apply(s1, o2);
    var s3 := Apply(s2, o3);
    var s4 := Apply(s3, o4);
    assert ApplyAll(s4, [o5]) == Apply(s4, o5);
    assert ApplyAll(s3, [o4, o5]) == ApplyAll(s4, [o5]);
    assert ApplyAll(s2, [o3, o4, o5]) == ApplyAll(s3, [o4, o5]);
    assert ApplyAll(s1, [o2, o3, o4, o5]) == ApplyAll(s2, [o3, o4, o5]);
  }

  /** The last call home flag that is a single 0 or 1; all others are ignored. */
  function LastFlag(os: seq<SubOption>): Option<bool> {
    if os == [] then None
    else if os[|os|-1].tag == CALL_HOME && os[|os|-1].value == [0] then Some(false)
    else if os[|os|-1].tag == CALL_HOME && os[|os|-1].value == [1] then Some(true)
    else LastFlag(os[..|os|-1])
  }

  /** Unlike an address or a name, a malformed flag leaves the earlier one in place. */
  lemma {:induction false} LastGoodFlagDecides(s: Settings, os: seq<SubOption>)
    ensures ApplyAll(s, os).callHomeTls == (match LastFlag(os) case None => s.callHomeTls case Some(tls) => tls)
    decreases |os|
  {
    if os != [] {
      var n := |os| - 1;
      LastGoodFlagDecides(s, os[..n]);
      OneMoreApplied(s, os);
    }
  }

  // ---------- the reading of the standard ----------

  const PAD: Byte := 0
  const END: Byte := 255

  /** Section 8.4 of RFC 2132: the code 0 is a pad of one byte, and 255 ends the options. */
  function StandardSplit(bytes: seq<Byte>): seq<SubOption>
    decreases |bytes|
  {
    if bytes == [] || bytes[0] == END then []
    else if bytes[0] == PAD then StandardSplit(bytes[1..])
    else if Stuck(bytes) then []
    else [SubOption(bytes[0], bytes[2..2 + bytes[1]])] + StandardSplit(bytes[2 + bytes[1]..])
  }

  predicate Proper(os: seq<SubOption>) {
    forall o :: o in os ==> o.tag != PAD && o.tag != END
  }

  /** Bytes in which the program finds nothing more, but a complete option stands behind a pad. */
  predicate PadHidesOption(left: seq<Byte>) {
    |left| >= 2 && left[0] == PAD && left[1] != END && !Stuck(left[1..])
  }

  lemma {:induction false} StandardIsProper(bytes: seq<Byte>)
    ensures Proper(StandardSplit(bytes))
    decreases |bytes|
  {
    if bytes != [] && bytes[0] == PAD {
      StandardIsProper(bytes[1..]);
    } else if !Stuck(bytes) && bytes[0] != END {
      StandardIsProper(bytes[2 + bytes[1]..]);
    }
  }

  lemma StandardOfStuck(left: seq<Byte>)
    requires Stuck(left)
    ensures StandardSplit(left) == [] <==> !PadHidesOption(left)
  {
    if |left| >= 2 && left[0] == PAD {
      assert left[1] > 0;
    }
  }

  /**
   The program reads a payload as the standard does exactly when it takes no pad and no end for the tag of a
   sub-option, and does not give up at a pad with a complete option behind it.
   */
  lemma {:induction false} ReadsLikeTheStandardIff(bytes: seq<Byte>)
    ensures Split(bytes).0 == StandardSplit(bytes) <==> Proper(Split(bytes).0) && !PadHidesOption(Split(bytes).1)
    decreases |bytes|
  {
    var (os, left) := Split(bytes);
    if Stuck(bytes) {
      StandardOfStuck(bytes);
    } else {
      var next := bytes[2 + bytes[1]..];
      assert os == [os[0]] + Split(next).0 && os[0].tag == bytes[0];
      if bytes[0] == PAD || bytes[0] == END {
        StandardIsProper(bytes);
      } else {
        ReadsLikeTheStandardIff(next);
        assert os[1..] == Split(next).0 && StandardSplit(bytes)[1..] == StandardSplit(next);
      }
    }
  }

  lemma StandardOfOne(o: SubOption, more: seq<Byte>)
    requires Encodable(o) && o.tag != PAD && o.tag != END
    ensures StandardSplit(Encode(o) + more) == [o] + StandardSplit(more)
  {
    var bytes := Encode(o) + more;
    assert bytes[1] == |o.value| && bytes[2..2 + |o.value|] == o.value && bytes[2 + |o.value|..] == more;
  }

  lemma StandardOfPad(more: seq<Byte>)
    ensures StandardSplit([PAD] + more) == StandardSplit(more)
  {
    assert ([PAD] + more)[1..] == more;
  }

  /** A single pad in front loses a name of fewer than 131 bytes, and the collector of the environment is used. */
  lemma PadLosesTheName(name: seq<Byte>, environmentUrl: string)
    requires |name| < 131 && Ascii(name)
    ensures var bytes := [PAD] + Encode(SubOption(VES_FQDN, name));
            var none := Settings(None, None, false, None, None);
            && VesUrl(ApplyAll(none, Split(bytes).0), environmentUrl) == environmentUrl
            && VesUrl(ApplyAll(none, StandardSplit(bytes)), environmentUrl) == UrlOf(Text(name))
  {
    hide StandardSplit, Text, Ascii;
    var o := SubOption(VES_FQDN, name);
    assert Stuck([PAD] + Encode(o));
    StandardOfPad(Encode(o));
    StandardOfOne(o, []);
    NothingToRead();
    assert Encode(o) + [] == Encode(o) && [o] + [] == [o] && [o][1..] == [];
  }

  lemma NothingToRead()
    ensures StandardSplit([]) == [] && Split([]) == ([], [])
  {
  }

  function Zeros(n: nat): seq<Byte> {
    if n == 0 then [] else [PAD] + Zeros(n - 1)
  }

  predicate Ignored(os: seq<SubOption>) {
    forall o :: o in os ==> o.tag == PAD || o.tag == END
  }

  lemma {:induction false} IgnoredChangesNothing(s: Settings, os: seq<SubOption>)
    requires Ignored(os)
    ensures ApplyAll(s, os) == s
    decreases |os|
  {
    if os != [] {
      assert os[0] in os && forall o :: o in os[1..] ==> o in os;
      IgnoredChangesNothing(Apply(s, os[0]), os[1..]);
    }
  }

  lemma ZerosInFront(n: nat)
    ensures Zeros(0) == [] && Zeros(1) == [PAD]
    ensures n > 0 ==> Zeros(n) == [PAD] + Zeros(n - 1)
    ensures n > 1 ==> Zeros(n) == Encode(SubOption(PAD, [])) + Zeros(n - 2)
  {
  }

  lemma {:induction false} ZerosAreIgnored(n: nat)
    ensures Ignored(Split(Zeros(n)).0) && StandardSplit(Zeros(n)) == []
  {
    hide Split, StandardSplit, Zeros, Encode;
    ZerosInFront(n);
    if n == 0 {
      NothingToRead();
    } else if n == 1 {
      StandardOfPad([]);
      NothingToRead();
      SplitOfStuck([PAD]);
    } else {
      StandardOfPad(Zeros(n - 1));
      ZerosAreIgnored(n - 1);
      ZerosAreIgnored(n - 2);
      SplitOfOne(SubOption(PAD, []), Zeros(n - 2));
    }
  }

  /** What may follow the sub-options: nothing but pads, or an end and pads. */
  function Trailer(end: bool, pads: nat): seq<Byte> {
    (if end then [END] else []) + Zeros(pads)
  }

  lemma TrailerIsIgnored(end: bool, pads: nat)
    ensures Ignored(Split(Trailer(end, pads)).0) && StandardSplit(Trailer(end, pads)) == []
  {
    hide Split;
    var t := Trailer(end, pads);
    ZerosAreIgnored(pads);
    if !end {
      assert t == Zeros(pads);
    } else if pads == 0 {
      SplitOfStuck(t);
    } else {
      ZerosAreIgnored(pads - 1);
      SplitOfOne(SubOption(END, []), Zeros(pads - 1));
      assert t == Encode(SubOption(END, [])) + Zeros(pads - 1);
    }
  }

  lemma {:induction false} StandardOfEncoded(os: seq<SubOption>, more: seq<Byte>)
    requires AllEncodable(os) && Proper(os)
    ensures StandardSplit(EncodeAll(os) + more) == os + StandardSplit(more)
    decreases |os|
  {
    hide StandardSplit;
    if os == [] {
      assert EncodeAll(os) + more == more;
    } else {
      assert os[0] in os && forall o :: o in os[1..] ==> o in os;
      StandardOfEncoded(os[1..], more);
      StandardOfOne(os[0], EncodeAll(os[1..]) + more);
      assert (Encode(os[0]) + EncodeAll(os[1..])) + more == Encode(os[0]) + (EncodeAll(os[1..]) + more);
      assert os == [os[0]] + os[1..];
    }
  }

  /** Sub-options that are closed by an end and any number of pads give the settings of the standard's reading. */
  lemma TrailersDoNoHarm(s: Settings, os: seq<SubOption>, end: bool, pads: nat)
    requires AllEncodable(os) && Proper(os)
    ensures var bytes := EncodeAll(os) + Trailer(end, pads);
            StandardSplit(bytes) == os && ApplyAll(s, Split(bytes).0) == ApplyAll(s, os)
  {
    var t := Trailer(end, pads);
    TrailerIsIgnored(end, pads);
    StandardOfEncoded(os, t);
    SplitPrintsBack(t);
    SplitOfTwoReadings(os, Split(t).0, Split(t).1, EncodeAll(os) + t);
    ApplyInTwo(s, os, Split(t).0);
    IgnoredChangesNothing(ApplyAll(s, os), Split(t).0);
  }

  lemma {:induction false} NumeralsPlain(bs: seq<Byte>)
    ensures |Numerals(bs)| == |bs|
    ensures bs != [] ==> TextFormats.SplitAt(TextFormats.Join(Numerals(bs), '.'), '.') == Numerals(bs)
  {
    if bs != [] {
      var d := Decimal(bs[0]);
      assert '.' in d ==> IsDigit('.');
      TextFormats.SplitOfPlain(d, '.');
      NumeralsPlain(bs[1..]);
      if |bs| > 1 {
        assert Numerals(bs)[1..] == Numerals(bs[1..]);
        TextFormats.SplitOfJoined(d, TextFormats.Join(Numerals(bs[1..]), '.'), '.');
      } else {
        assert Numerals(bs) == [d] && Numerals(bs)[1..] == [];
      }
    }
  }

  lemma {:induction false} NumeralsInjective(a: seq<Byte>, b: seq<Byte>)
    requires Numerals(a) == Numerals(b)
    ensures a == b
  {
    if a != [] && b != [] {
      assert Numerals(a)[0] == Decimal(a[0]) && Numerals(b)[0] == Decimal(b[0]);
      DecimalIsInjective(a[0], b[0]);
      assert Numerals(a)[1..] == Numerals(a[1..]) && Numerals(b)[1..] == Numerals(b[1..]);
      NumeralsInjective(a[1..], b[1..]);
      assert a == [a[0]] + a[1..] && b == [b[0]] + b[1..];
    }
  }

  lemma {:induction false} NumeralsAt(bs: seq<Byte>)
    ensures |Numerals(bs)| == |bs|
    ensures forall k :: 0 <= k < |bs| ==> Number(Numerals(bs)[k]) == bs[k]
  {
    if bs != [] {
      NumeralsAt(bs[1..]);
      NumberOfDecimal(bs[0]);
    }
  }

  /** The parts between the dots are the bytes, in order and in decimal. */
  lemma DottedReadsBack(bs: seq<Byte>, k: nat)
    requires k < |bs|
    ensures var parts := TextFormats.SplitAt(Dotted(bs), '.');
            |parts| == |bs| && Digits(parts[k]) && Number(parts[k]) == bs[k]
  {
    NumeralsPlain(bs);
    NumeralsAt(bs);
  }

  /** A name is the characters of its bytes. */
  lemma {:induction false} TextAt(value: seq<Byte>)
    requires Ascii(value)
    ensures |Text(value)| == |value| && forall k :: 0 <= k < |value| ==> Text(value)[k] == value[k] as char
  {
    if value != [] {
      assert value[0] in value && forall b :: b in value[1..] ==> b in value;
      TextAt(value[1..]);
    }
  }

  /** The dotted form tells all addresses apart. */
  lemma DottedIsInjective(a: seq<Byte>, b: seq<Byte>)
    requires a != [] && b != [] && Dotted(a) == Dotted(b)
    ensures a == b
  {
    NumeralsPlain(a);
    NumeralsPlain(b);
    NumeralsInjective(a, b);
  }

  // ---------- the configuration object ----------

  class Config {
    var controllerIp: Option<string>
    var controllerFqdn: Option<string>
    var callHomeTls: bool
    var vesIp: Option<string>
    var vesFqdn: Option<string>
    var vesUrl: string

    constructor ()
      ensures State() == Settings(None, None, false, None, None)
    {
      controllerIp, controllerFqdn, callHomeTls, vesIp, vesFqdn, vesUrl := None, None, false, None, None, "";
    }

    function State(): Settings
      reads this
    {
      Settings(controllerIp, controllerFqdn, callHomeTls, vesIp, vesFqdn)
    }

    /** The branches on the type of one sub-option. */
    method Receive(tag: Byte, value: seq<Byte>)
      modifies this
      ensures State() == Apply(old(State()), SubOption(tag, value)) && vesUrl == old(vesUrl)
    {
      if tag == CONTROLLER_IP {
        controllerIp := AddressOf(value);
      } else if tag == VES_IP {
        vesIp := AddressOf(value);
      } else if tag == CONTROLLER_FQDN {
        controllerFqdn := NameOf(value);
      } else if tag == VES_FQDN {
        vesFqdn := NameOf(value);
      } else if tag == CALL_HOME {
        if |value| == 1 {
          if value[0] == 0 {
            callHomeTls := false;
          } else if value[0] == 1 {
            callHomeTls := true;
          }
        }
      }
    }

    /**
     parse_option_43: the index runs over the complete sub-options, at least two bytes at a time, and never past the
     end.
     */
    method ParseOption43(raw: seq<Byte>)
      modifies this
      ensures State() == ApplyAll(old(State()), Split(raw).0) && vesUrl == old(vesUrl)
    {
      hide Split, Apply;
      var index := 0;
      assert raw[0..] == raw;
      while index < |raw|
        invariant 0 <= index <= |raw| && vesUrl == old(vesUrl)
        invariant ApplyAll(State(), Split(raw[index..]).0) == ApplyAll(old(State()), Split(raw).0)
        decreases |raw| - index
      {
        ghost var left := raw[index..];
        if index + 2 > |raw| {
          SplitOfStuck(left);
          return;
        }
        var optType, optLen := raw[index], raw[index + 1];
        if index + 2 + optLen > |raw| {
          SplitOfStuck(left);
          return;
        }
        var optValue := raw[index + 2..index + 2 + optLen];
        assert left[2..2 + optLen] == optValue && left[2 + optLen..] == raw[index + 2 + optLen..];
        FirstApplied(State(), left);
        Receive(optType, optValue);
        index := index + 2 + optLen;
      }
      SplitOfStuck([]);
      assert raw[|raw|..] == [];
    }

    /** reload: defaults, then the offers that came in, then the address of the collector. */
    method Reload(offers: seq<seq<Byte>>, environmentUrl: string)
      modifies this
      ensures State() == ApplyAll(Settings(None, None, false, None, None), Received(offers))
      ensures vesUrl == VesUrl(State(), environmentUrl)
    {
      controllerIp, controllerFqdn, callHomeTls, vesIp, vesFqdn := None, None, false, None, None;
      for i := 0 to |offers|
        invariant State() == ApplyAll(Settings(None, None, false, None, None), Received(offers[..i]))
      {
        ParseOption43(offers[i]);
        assert offers[..i + 1][..i] == offers[..i];
        ApplyInTwo(Settings(None, None, false, None, None), Received(offers[..i]), Split(offers[i]).0);
      }
      assert offers[..|offers|] == offers;
      if vesFqdn.Some? {
        vesUrl := "https://" + vesFqdn.value + "/eventListener/v7";
      } else if vesIp.Some? {
        vesUrl := "https://" + vesIp.value + "/eventListener/v7";
      } else {
        vesUrl := environmentUrl;
      }
    }
  }

  /** The sub-options of all offers, in the order they came in. */
  function Received(offers: seq<seq<Byte>>): seq<SubOption> {
    if offers == [] then [] else Received(offers[..|offers|-1]) + Split(offers[|offers|-1]).0
  }

  function UrlOf(host: string): string {
    "https://" + host + "/eventListener/v7"
  }

  function VesUrl(s: Settings, environmentUrl: string): string {
    if s.vesFqdn.Some? then UrlOf(s.vesFqdn.value) else if s.vesIp.Some? then UrlOf(s.vesIp.value) else environmentUrl
  }

  /** Where the collector's address comes from, in terms of the bytes received: name over address over environment. */
  lemma UrlPrecedence(offers: seq<seq<Byte>>, environmentUrl: string)
    ensures var os := Received(offers);
            var url := VesUrl(ApplyAll(Settings(None, None, false, None, None), os), environmentUrl);
            match (LastOf(os, VES_FQDN), LastOf(os, VES_IP)) {
              case (Some(name), _) =>
                if Ascii(name) then url == UrlOf(Text(name))
                else match LastOf(os, VES_IP) {
                  case Some(ip) => url == if |ip| == 4 then UrlOf(Dotted(ip)) else environmentUrl
                  case None => url == environmentUrl
                }
              case (None, Some(ip)) => url == if |ip| == 4 then UrlOf(Dotted(ip)) else environmentUrl
              case (None, None) => url == environmentUrl
            }
  {
    LastOneDecides(Settings(None, None, false, None, None), Received(offers));
  }

  /** The address the call home endpoints get; none when the offers name no controller. */
  function ControllerAddress(s: Settings): Option<string> {
    if s.controllerFqdn.Some? then s.controllerFqdn else s.controllerIp
  }
}
