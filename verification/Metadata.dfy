/**
 * Stream metadata: SetDataFrame::read_payload takes an ECMA array (section 2.10 of the AMF0 specification) apart, and
 * OnMetaData::write_payload sends its properties on as an object.
 */
module Metadata {
  import opened Options
  import opened Bytes
  import opened Amf
  import Chunking

  // ---------- Reading @setDataFrame ----------

  /** A string behind its marker, with a length of 1 to 32767: how many bytes it takes. */
  function StringSize(s: seq<Byte>): Option<nat> {
    if |s| < 3 || s[0] != 0x02 || !(0 < Word(s[1..]) < 0x8000) then None else Some(3 + Word(s[1..]))
  }

  /** The value of a property; a string must lie within the message, which the code does not check. */
  function ParseVal(s: seq<Byte>): (r: Option<(Val, nat)>)
    ensures r.Some? ==> r.value.1 <= |s|
  {
    if s == [] then None
    else if s[0] == 0x00 then (if |s| < 9 then None else Some((Num(Reversed(s[1..9])), 9)))
    else if s[0] == 0x01 then (if |s| < 2 then None else Some((Flag(s[1]), 2)))
    else if StringSize(s).None? || StringSize(s).value > |s| then None
    else Some((Str(s[3..StringSize(s).value]), StringSize(s).value))
  }

  function ParseProp(s: seq<Byte>): (r: Option<(Prop, nat)>)
    ensures r.Some? ==> r.value.1 <= |s|
  {
    if |s| < 2 || !(0 < Word(s) < 0x8000) || 2 + Word(s) >= |s| then None
    else
      var v := ParseVal(s[2 + Word(s)..]);
      if v.None? then None else Some((Prop(s[2..2 + Word(s)], v.value.0), 2 + Word(s) + v.value.1))
  }

  function ParseProps(s: seq<Byte>, count: nat): (r: Option<(seq<Prop>, nat)>)
    ensures r.Some? ==> r.value.1 <= |s| && |r.value.0| == count
    decreases count
  {
    if count == 0 then Some(([], 0))
    else
      var p := ParseProp(s);
      if p.None? then None else
        var rest := ParseProps(s[p.value.1..], count - 1);
        if rest.None? then None else Some(([p.value.0] + rest.value.0, p.value.1 + rest.value.1))
  }

  /** A 32-bit big-endian count, as int32_t. */
  function Count(s: seq<Byte>): int
    requires |s| >= 4
  {
    Int32(Value(Reversed(s[..4])))
  }

  /** Two strings, the array marker and the count: where the properties start, and how many there are. */
  function FrameHead(s: seq<Byte>): (r: Option<(nat, nat)>)
    ensures r.Some? ==> r.value.0 <= |s|
  {
    var a := StringSize(s);
    if a.None? || a.value > |s| then None else
      var b := StringSize(s[a.value..]);
      if b.None? || a.value + b.value > |s| then None else
        var t := s[a.value + b.value..];
        if |t| < 5 || t[0] != 0x08 || Count(t[1..]) <= 0 then None else Some((a.value + b.value + 5, Count(t[1..])))
  }

  /** The properties of a frame, and where they start and end. */
  function ParseFrame(s: seq<Byte>): (r: Option<(seq<Prop>, nat, nat)>)
    ensures r.Some? ==> r.value.1 <= r.value.2 <= |s|
  {
    var h := FrameHead(s);
    if h.None? then None else
      var ps := ParseProps(s[h.value.0..], h.value.1);
      if ps.None? then None else Some((ps.value.0, h.value.0, h.value.0 + ps.value.1))
  }

  // ---------- Where the code reads beyond the message ----------

  /** A string value that announces more bytes than there are: the code takes them from behind the message. */
  predicate ValOverruns(s: seq<Byte>) {
    StringSize(s).Some? && StringSize(s).value > |s|
  }

  predicate PropOverruns(s: seq<Byte>) {
    |s| >= 2 && 0 < Word(s) < 0x8000 && 2 + Word(s) < |s| && ValOverruns(s[2 + Word(s)..])
  }

  /** One of count properties does, and those before it are in order. */
  predicate PropsOverrun(s: seq<Byte>, count: nat)
    decreases count
  {
    count > 0 && (PropOverruns(s) || (ParseProp(s).Some? && PropsOverrun(s[ParseProp(s).value.1..], count - 1)))
  }

  predicate FrameOverruns(s: seq<Byte>) {
    FrameHead(s).Some? && PropsOverrun(s[FrameHead(s).value.0..], FrameHead(s).value.1)
  }

  // ---------- Writing onMetaData ----------

  /** As in write_object, but with booleans and without 0x08. */
  function MetaVal(v: Val): Option<seq<Byte>> {
    match v
    case Flag(b) => Some([0x01, b])
    case Len(_) => None
    case _ => WriteVal(v)
  }

  function MetaProp(p: Prop): Option<seq<Byte>> {
    if WriteText(p.key).None? || MetaVal(p.val).None? then None else Some(WriteText(p.key).value + MetaVal(p.val).value)
  }

  function MetaParts(ps: seq<Prop>): (r: seq<Option<seq<Byte>>>)
    ensures |r| == |ps|
  {
    seq(|ps|, i requires 0 <= i < |ps| => MetaProp(ps[i]))
  }

  function MetaProps(ps: seq<Prop>): Option<seq<Byte>> {
    Join(MetaParts(ps))
  }

  const SERVER: seq<Byte> := [0x73, 0x65, 0x72, 0x76, 0x65, 0x72]
  /** srs(simple rtmp server)0.1 */
  const NAME: seq<Byte> :=
    [0x73, 0x72, 0x73, 0x28, 0x73, 0x69, 0x6D, 0x70, 0x6C, 0x65, 0x20, 0x72, 0x74, 0x6D, 0x70, 0x20,
     0x73, 0x65, 0x72, 0x76, 0x65, 0x72, 0x29, 0x30, 0x2E, 0x31]

  const SERVER_BYTES: seq<Byte> := [0x00, 0x06] + SERVER + [0x02, 0x00, 0x1A] + NAME

  const SERVER_PROP := Prop(SERVER, Str(NAME))

  function MetaHead(command: seq<Byte>): seq<Byte> {
    [0x02] + Be(|command|, 2) + command + [0x03]
  }

  /** The payload for a frame, after the server has added itself to it. */
  function MetaData(command: seq<Byte>, frame: seq<Prop>): Option<seq<Byte>> {
    if MetaProps(frame).None? then None
    else Some(MetaHead(command) + (MetaProps(frame).value + END))
  }

  // ---------- Nothing is lost on the way ----------

  lemma TextIsKept(s: seq<Byte>, len: nat)
    requires |s| >= 2 && len == Word(s) && 0 < len < 0x8000 && 2 + len <= |s|
    ensures WriteText(s[2..2 + len]) == Some(s[..2 + len])
  {
    BeOfWord(s);
    assert s[..2] + s[2..2 + len] == s[..2 + len];
    assert s[2..2 + len][..len] == s[2..2 + len];
  }

  lemma ValIsKept(s: seq<Byte>)
    requires ParseVal(s).Some?
    ensures MetaVal(ParseVal(s).value.0) == Some(s[..ParseVal(s).value.1])
  {
    if s[0] == 0x00 {
      ReversedTwice(s[1..9]);
      assert [s[0]] + s[1..9] == s[..9];
    } else if s[0] == 0x01 {
      assert [s[0], s[1]] == s[..2];
    } else {
      var n := Word(s[1..]);
      TextIsKept(s[1..], n);
      assert s[1..][2..2 + n] == s[3..3 + n] && s[1..][..2 + n] == s[1..3 + n];
      assert [s[0]] + s[1..3 + n] == s[..3 + n];
    }
  }

  /** A property is written exactly as it was read. */
  lemma PropIsKept(s: seq<Byte>)
    requires ParseProp(s).Some?
    ensures MetaProp(ParseProp(s).value.0) == Some(s[..ParseProp(s).value.1])
  {
    var n := Word(s);
    TextIsKept(s, n);
    ValIsKept(s[2 + n..]);
    Prefixes(s, 2 + n, ParseVal(s[2 + n..]).value.1);
  }

  lemma Prefixes(s: seq<Byte>, n: nat, m: nat)
    requires n + m <= |s|
    ensures s[..n] + s[n..][..m] == s[..n + m]
  {
  }

  /** So are all of them. */
  lemma {:induction false} PropsAreKept(s: seq<Byte>, count: nat, ps: seq<Prop>, m: nat)
    requires ParseProps(s, count) == Some((ps, m))
    ensures MetaProps(ps) == Some(s[..m])
    decreases count
  {
    if count == 0 {
      assert MetaParts(ps) == [] && s[..0] == [];
    } else {
      var x, n, qs, k := FirstParsed(s, count, ps, m);
      PropsAreKept(s[n..], count - 1, qs, k);
      KeptStep(s, ps, m, x, n, qs, k);
    }
  }

  lemma KeptStep(s: seq<Byte>, ps: seq<Prop>, m: nat, x: Option<seq<Byte>>, n: nat, qs: seq<Prop>, k: nat)
    requires n + k == m <= |s| && x == Some(s[..n]) && MetaProps(qs) == Some(s[n..][..k])
    requires MetaParts(ps) == [x] + MetaParts(qs)
    ensures MetaProps(ps) == Some(s[..m])
  {
    JoinFirst(x, MetaParts(qs), s, n, k);
  }

  lemma {:induction false} FirstParsed(s: seq<Byte>, count: nat, ps: seq<Prop>, m: nat)
    returns (x: Option<seq<Byte>>, n: nat, qs: seq<Prop>, k: nat)
    requires count > 0 && ParseProps(s, count) == Some((ps, m))
    ensures n + k == m <= |s| && x == Some(s[..n]) && ParseProps(s[n..], count - 1) == Some((qs, k))
    ensures MetaParts(ps) == [x] + MetaParts(qs)
  {
    var p := ParseProp(s).value;
    n, x := p.1, MetaProp(p.0);
    PropIsKept(s);
    qs, k := ParseProps(s[n..], count - 1).value.0, ParseProps(s[n..], count - 1).value.1;
    PartsFirst(p.0, qs);
  }

  lemma PartsFirst(p: Prop, ps: seq<Prop>)
    ensures MetaParts([p] + ps) == [MetaProp(p)] + MetaParts(ps)
  {
  }

  lemma JoinFirst(x: Option<seq<Byte>>, parts: seq<Option<seq<Byte>>>, s: seq<Byte>, n: nat, k: nat)
    requires n + k <= |s| && x == Some(s[..n]) && Join(parts) == Some(s[n..][..k])
    ensures Join([x] + parts) == Some(s[..n + k])
  {
    assert ([x] + parts)[1..] == parts;
    Prefixes(s, n, k);
  }

  lemma ParseStep(s: seq<Byte>, count: nat)
    requires count > 0
    ensures var p := ParseProp(s);
      ParseProps(s, count) ==
        if p.None? || ParseProps(s[p.value.1..], count - 1).None? then None
        else var r := ParseProps(s[p.value.1..], count - 1).value; Some(([p.value.0] + r.0, p.value.1 + r.1))
  {
  }

  lemma {:induction false} JoinAppend(parts: seq<Option<seq<Byte>>>, x: seq<Byte>)
    requires Join(parts).Some?
    ensures Join(parts + [Some(x)]) == Some(Join(parts).value + x)
  {
    if parts == [] {
      assert parts + [Some(x)] == [Some(x)] && [Some(x)][1..] == [];
      assert x + [] == [] + x;
    } else {
      assert (parts + [Some(x)])[1..] == parts[1..] + [Some(x)];
      JoinAppend(parts[1..], x);
      Regroup(parts[0].value, Join(parts[1..]).value, x);
    }
  }

  lemma ServerBytes()
    ensures MetaProp(SERVER_PROP) == Some(SERVER_BYTES)
  {
    assert SERVER[..6] == SERVER && NAME[..26] == NAME;
    SmallBe(6);
    SmallBe(26);
    assert WriteText(SERVER) == Some([0x00, 0x06] + SERVER) && WriteText(NAME) == Some([0x00, 0x1A] + NAME);
    assert [0x02] + ([0x00, 0x1A] + NAME) == [0x02, 0x00, 0x1A] + NAME;
    var key := [0x00, 0x06] + SERVER;
    assert key + ([0x02, 0x00, 0x1A] + NAME) == key + [0x02, 0x00, 0x1A] + NAME;
  }

  lemma SmallBe(n: nat)
    requires n < 256
    ensures Be(n, 2) == [0, n]
  {
    BeOfTwo(n);
  }

  /** The properties of a frame are written as they came. */
  lemma FrameIsKept(s: seq<Byte>)
    requires ParseFrame(s).Some?
    ensures var (ps, start, end) := ParseFrame(s).value; MetaProps(ps) == Some(s[start..end])
  {
    var (ps, start, end) := ParseFrame(s).value;
    PropsAreKept(s[start..], FrameHead(s).value.1, ps, end - start);
    assert s[start..][..end - start] == s[start..end];
  }

  lemma HeadBytes(command: seq<Byte>)
    ensures MetaHead(command) == [0x02] + Text(command) + [0x03]
  {
    Regroup([0x02], Be(|command|, 2), command);
  }

  /** The bytes of an ASCII string. */
  function Ascii(t: string): seq<int> {
    seq(|t|, i requires 0 <= i < |t| => t[i] as int)
  }

  lemma ServerIsSpelled()
    ensures SERVER == Ascii("server") && NAME == Ascii("srs(simple rtmp server)0.1")
    ensures SERVER_BYTES == [0x00, 0x06] + SERVER + [0x02, 0x00, 0x1A] + NAME
  {
  }

  /** The first onMetaData carries the bytes of the frame's properties as they came, then the server property. */
  lemma MetadataIsKept(s: seq<Byte>, command: seq<Byte>)
    requires ParseFrame(s).Some?
    ensures var (ps, start, end) := ParseFrame(s).value;
      MetaData(command, ps + [SERVER_PROP]) ==
        Some([0x02] + Text(command) + [0x03] + (s[start..end] + SERVER_BYTES + [0x00, 0x00, 0x09]))
  {
    HeadBytes(command);
    FrameIsKept(s);
    ServerIsAdded(ParseFrame(s).value.0);
  }

  lemma ServerIsAdded(ps: seq<Prop>)
    requires MetaProps(ps).Some?
    ensures MetaProps(ps + [SERVER_PROP]) == Some(MetaProps(ps).value + SERVER_BYTES)
  {
    ServerBytes();
    assert MetaParts(ps + [SERVER_PROP]) == MetaParts(ps) + [Some(SERVER_BYTES)];
    JoinAppend(MetaParts(ps), SERVER_BYTES);
  }

  // ---------- Every onMetaData ----------

  /** The table after n onMetaData messages. */
  function AfterSending(frame: seq<Prop>, n: nat): (r: seq<Prop>)
    ensures |r| == |frame| + n
  {
    if n == 0 then frame else AfterSending(frame, n - 1) + [SERVER_PROP]
  }

  function Servers(n: nat): (r: seq<Byte>)
    ensures |r| == n * |SERVER_BYTES|
  {
    if n == 0 then [] else Servers(n - 1) + SERVER_BYTES
  }

  lemma {:induction false} ServersAreAdded(frame: seq<Prop>, n: nat)
    requires MetaProps(frame).Some?
    ensures MetaProps(AfterSending(frame, n)) == Some(MetaProps(frame).value + Servers(n))
  {
    if n == 0 {
      assert MetaProps(frame).value + [] == MetaProps(frame).value;
    } else {
      ServersAreAdded(frame, n - 1);
      ServerIsAdded(AfterSending(frame, n - 1));
      Regroup(MetaProps(frame).value, Servers(n - 1), SERVER_BYTES);
    }
  }

  /** The payload that a frame calls for: its properties as they came, one server property, and the end marker. */
  function Intended(s: seq<Byte>, command: seq<Byte>): seq<Byte>
    requires ParseFrame(s).Some?
  {
    var (_, start, end) := ParseFrame(s).value;
    [0x02] + Text(command) + [0x03] + (s[start..end] + SERVER_BYTES + [0x00, 0x00, 0x09])
  }

  /** The n-th onMetaData after a frame carries n server properties: it is what it should be exactly if n is 1. */
  lemma OnlyTheFirstIsRight(s: seq<Byte>, command: seq<Byte>, n: nat)
    requires ParseFrame(s).Some?
    ensures var (ps, start, end) := ParseFrame(s).value;
      && MetaData(command, AfterSending(ps, n)) ==
           Some([0x02] + Text(command) + [0x03] + (s[start..end] + Servers(n) + [0x00, 0x00, 0x09]))
      && (MetaData(command, AfterSending(ps, n)) == Some(Intended(s, command)) <==> n == 1)
  {
    var (ps, start, end) := ParseFrame(s).value;
    HeadBytes(command);
    FrameIsKept(s);
    ServersAreAdded(ps, n);
    if n == 1 { assert Servers(1) == SERVER_BYTES; }
  }

  /** It happens: the second player gets the server property twice. */
  lemma SecondHasTwoServers(s: seq<Byte>, command: seq<Byte>)
    requires ParseFrame(s).Some?
    ensures var (ps, start, end) := ParseFrame(s).value;
      && MetaData(command, AfterSending(ps, 2)) ==
           Some([0x02] + Text(command) + [0x03] + (s[start..end] + (SERVER_BYTES + SERVER_BYTES) + [0x00, 0x00, 0x09]))
      && MetaData(command, AfterSending(ps, 2)) != Some(Intended(s, command))
  {
    OnlyTheFirstIsRight(s, command, 2);
    assert Servers(1) == SERVER_BYTES;
  }

  // ---------- Which arrays are accepted ----------

  /** "@setDataFrame", the name of the handler, and an ECMA array (section 2.10 of the AMF0 specification). */
  function FrameBytes(command: seq<Byte>, name: seq<Byte>, ps: seq<Prop>): seq<Byte>
    requires Legal(ps)
  {
    [0x02] + Text(command) + ([0x02] + Text(name) + ([0x08] + Be(|ps|, 4) + PropsBytes(ps)))
  }

  predicate AcceptedVal(v: Val) {
    v.Str? ==> Fits(v.text)
  }

  predicate AcceptedProp(p: Prop) {
    Fits(p.key) && AcceptedVal(p.val)
  }

  lemma WordOfText(t: seq<Byte>, rest: seq<Byte>)
    requires |t| <= 0xFFFF
    ensures var s := Text(t) + rest; Word(s) == |t| && s[2..2 + |t|] == t && s[2 + |t|..] == rest
  {
    WordOfBe(|t|, t + rest);
    assert Text(t) + rest == Be(|t|, 2) + (t + rest);
  }

  lemma ParsesVal(v: Val, rest: seq<Byte>)
    requires LegalVal(v)
    ensures ParseVal(ValBytes(v) + rest) == if AcceptedVal(v) then Some((v, |ValBytes(v)|)) else None
  {
    match v
    case Num(d) =>
      assert ([0x00] + Reversed(d) + rest)[1..9] == Reversed(d);
      ReversedTwice(d);
    case Flag(b) =>
    case Str(t) =>
      ParsesString(t, rest);
      StringText(t, rest);
  }

  lemma StringText(t: seq<Byte>, rest: seq<Byte>)
    requires |t| <= 0xFFFF
    ensures ([0x02] + Text(t) + rest)[3..3 + |t|] == t
  {
  }

  lemma ParsesProp(p: Prop, rest: seq<Byte>)
    requires LegalProp(p)
    ensures ParseProp(PropBytes(p) + rest) == if AcceptedProp(p) then Some((p, |PropBytes(p)|)) else None
  {
    var s := PropBytes(p) + rest;
    WordOfText(p.key, ValBytes(p.val) + rest);
    assert s == Text(p.key) + (ValBytes(p.val) + rest);
    ParsesVal(p.val, rest);
  }

  predicate AllAccepted(ps: seq<Prop>) {
    ps == [] || (AcceptedProp(ps[0]) && AllAccepted(ps[1..]))
  }

  lemma {:induction false} AllAcceptedIff(ps: seq<Prop>)
    ensures AllAccepted(ps) <==> forall p :: p in ps ==> AcceptedProp(p)
  {
    if ps != [] {
      AllAcceptedIff(ps[1..]);
      assert ps == [ps[0]] + ps[1..];
    }
  }

  type One = seq<Byte> -> Option<(Prop, nat)>
  type All = (seq<Byte>, int) -> Option<(seq<Prop>, nat)>

  /** What one(s) makes of a property, and all(s, n) of n of them. */
  ghost predicate OneAt(one: One, p: Prop, t: seq<Byte>) {
    LegalProp(p) ==> one(PropBytes(p) + t) == if AcceptedProp(p) then Some((p, |PropBytes(p)|)) else None
  }

  ghost predicate AllAt(one: One, all: All, s: seq<Byte>, n: int) {
    && (n == 0 ==> all(s, n) == Some(([], 0)))
    && (n > 0 && one(s).None? ==> all(s, n).None?)
    && (n > 0 && one(s).Some? && one(s).value.1 <= |s| ==>
          var (p, k) := one(s).value;
          all(s, n) == if all(s[k..], n - 1).None? then None
                       else var (qs, m) := all(s[k..], n - 1).value; Some(([p] + qs, k + m)))
  }

  ghost predicate IsParser(one: One, all: All) {
    && (forall p, t {:trigger OneAt(one, p, t)} :: OneAt(one, p, t))
    && (forall s, n {:trigger AllAt(one, all, s, n)} :: AllAt(one, all, s, n))
  }

  ghost function Parser(): (r: (One, All))
    ensures IsParser(r.0, r.1) && forall s, n :: n >= 0 ==> r.1(s, n) == ParseProps(s, n)
  {
    var one := (s: seq<Byte>) => ParseProp(s);
    var all := (s: seq<Byte>, n: int) => if n < 0 then None else ParseProps(s, n);
    OneFacts(one);
    AllFacts(one, all);
    (one, all)
  }

  lemma OneFacts(one: One)
    requires forall s :: one(s) == ParseProp(s)
    ensures forall p, t {:trigger OneAt(one, p, t)} :: OneAt(one, p, t)
  {
    forall p, t ensures OneAt(one, p, t) {
      if LegalProp(p) { ParsesProp(p, t); }
    }
  }

  lemma AllFacts(one: One, all: All)
    requires forall s :: one(s) == ParseProp(s)
    requires forall s, n :: n >= 0 ==> all(s, n) == ParseProps(s, n)
    ensures forall s, n {:trigger AllAt(one, all, s, n)} :: AllAt(one, all, s, n)
  {
    forall s, n ensures AllAt(one, all, s, n) {
      if n > 0 { ParseStep(s, n); }
    }
  }

  lemma {:induction false} ParsesAll(one: One, all: All, s: seq<Byte>, ps: seq<Prop>, rest: seq<Byte>)
    requires IsParser(one, all) && Legal(ps) && s == PropsBytes(ps) + rest
    ensures all(s, |ps|) == if AllAccepted(ps) then Some((ps, |PropsBytes(ps)|)) else None
    decreases |ps|
  {
    assert AllAt(one, all, s, |ps|);
    if ps != [] {
      FirstBytes(ps, rest);
      var n := |PropBytes(ps[0])|;
      assert OneAt(one, ps[0], s[n..]);
      ParsesAll(one, all, s[n..], ps[1..], rest);
    }
  }

  lemma FirstBytes(ps: seq<Prop>, rest: seq<Byte>)
    requires Legal(ps) && ps != []
    ensures ps == [ps[0]] + ps[1..] && LegalProp(ps[0]) && Legal(ps[1..])
    ensures var s, b, t := PropsBytes(ps) + rest, PropBytes(ps[0]), PropsBytes(ps[1..]) + rest;
      s == b + t && s[|b|..] == t && |PropsBytes(ps)| == |b| + |PropsBytes(ps[1..])|
  {
    assert ps == [ps[0]] + ps[1..] && ps[0] in ps;
    Behind(PropBytes(ps[0]), PropsBytes(ps[1..]), rest);
  }

  lemma Behind(b: seq<Byte>, bs: seq<Byte>, rest: seq<Byte>)
    ensures b + bs + rest == b + (bs + rest) && (b + bs + rest)[|b|..] == bs + rest
  {
  }

  lemma ParsesProps(s: seq<Byte>, ps: seq<Prop>, rest: seq<Byte>)
    requires Legal(ps) && s == PropsBytes(ps) + rest
    ensures var r := ParseProps(s, |ps|); (r.Some? <==> AllAccepted(ps)) && (r.Some? ==> r.value.0 == ps)
  {
    ParsesAll(Parser().0, Parser().1, s, ps, rest);
  }

  lemma CountOfBe(n: nat, rest: seq<Byte>)
    requires n < 0x1_0000_0000
    ensures Count(Be(n, 4) + rest) == Int32(n)
  {
    assert (Be(n, 4) + rest)[..4] == Be(n, 4);
    BeRoundTrip(n, 4);
    Widths();
  }

  lemma ParsesString(t: seq<Byte>, rest: seq<Byte>)
    requires |t| <= 0xFFFF
    ensures var s := [0x02] + Text(t) + rest;
      && StringSize(s) == (if Fits(t) then Some(3 + |t|) else None) && |s| >= 3 + |t| && s[3 + |t|..] == rest
  {
    var s := [0x02] + Text(t) + rest;
    assert s[1..] == Text(t) + rest;
    WordOfText(t, rest);
    assert s[3 + |t|..] == s[1..][2 + |t|..];
  }

  lemma ParsesHead(s: seq<Byte>, command: seq<Byte>, name: seq<Byte>, n: nat, rest: seq<Byte>)
    requires |command| <= 0xFFFF && |name| <= 0xFFFF && n < 0x1_0000_0000
    requires s == [0x02] + Text(command) + ([0x02] + Text(name) + ([0x08] + Be(n, 4) + rest))
    ensures var k := HeadSize(command, name);
      && FrameHead(s) == (if Fits(command) && Fits(name) && 0 < n < 0x8000_0000 then Some((k, n)) else None)
      && |s| >= k && s[k..] == rest
  {
    var x, y, tail := [0x02] + Text(command), [0x02] + Text(name), [0x08] + Be(n, 4) + rest;
    HeadParts(s, x, y, tail);
    ParsesString(command, y + tail);
    ParsesString(name, tail);
    TailParts(n, rest);
    HeadOf(s, |x|, |y|, Int32(n), Fits(command), Fits(name));
    Twice(s, |x| + |y|, 5);
  }

  lemma HeadParts(s: seq<Byte>, x: seq<Byte>, y: seq<Byte>, tail: seq<Byte>)
    requires s == x + (y + tail)
    ensures s[|x|..] == y + tail && s[|x| + |y|..] == tail
  {
  }

  lemma TailParts(n: nat, rest: seq<Byte>)
    requires n < 0x1_0000_0000
    ensures var t := [0x08] + Be(n, 4) + rest; t[0] == 0x08 && Count(t[1..]) == Int32(n) && t[5..] == rest
  {
    CountOfBe(n, rest);
    assert ([0x08] + Be(n, 4) + rest)[1..] == Be(n, 4) + rest;
  }

  function HeadSize(command: seq<Byte>, name: seq<Byte>): nat {
    3 + |command| + (3 + |name|) + 5
  }

  lemma Twice(s: seq<Byte>, a: nat, b: nat)
    requires a + b <= |s|
    ensures s[a..][b..] == s[a + b..]
  {
  }

  lemma HeadOf(s: seq<Byte>, a: nat, b: nat, count: int, first: bool, second: bool)
    requires a + b + 5 <= |s| && StringSize(s) == if first then Some(a) else None
    requires StringSize(s[a..]) == if second then Some(b) else None
    requires s[a + b..][0] == 0x08 && Count(s[a + b..][1..]) == count
    ensures FrameHead(s) == if first && second && count > 0 then Some((a + b + 5, count)) else None
  {
  }

  /**
   * An encoded array is accepted exactly if every string in it has 1 to 32767 bytes and it has 1 to 2^31 - 1
   * properties; then its properties come out as they went in.
   */
  lemma AcceptedIff(command: seq<Byte>, name: seq<Byte>, ps: seq<Prop>, rest: seq<Byte>)
    requires |command| <= 0xFFFF && |name| <= 0xFFFF && |ps| < 0x1_0000_0000 && Legal(ps)
    ensures var r := ParseFrame(FrameBytes(command, name, ps) + rest);
      && (r.Some? <==> Fits(command) && Fits(name) && 0 < |ps| < 0x8000_0000 && AllAccepted(ps))
      && (r.Some? ==> r.value.0 == ps)
  {
    var s, k := FrameBytes(command, name, ps) + rest, HeadSize(command, name);
    FrameInParts(command, name, ps, rest);
    ParsesHead(s, command, name, |ps|, PropsBytes(ps) + rest);
    ParsesProps(s[k..], ps, rest);
    FrameOf(s, k, ps, Fits(command) && Fits(name) && 0 < |ps| < 0x8000_0000, AllAccepted(ps));
  }

  lemma PropFits(p: Prop, rest: seq<Byte>)
    requires LegalProp(p)
    ensures !PropOverruns(PropBytes(p) + rest)
  {
    var s := PropBytes(p) + rest;
    WordOfText(p.key, ValBytes(p.val) + rest);
    assert s == Text(p.key) + (ValBytes(p.val) + rest);
    if p.val.Str? { ParsesString(p.val.text, rest); }
  }

  lemma {:induction false} PropsFit(s: seq<Byte>, ps: seq<Prop>, rest: seq<Byte>)
    requires Legal(ps) && s == PropsBytes(ps) + rest
    ensures !PropsOverrun(s, |ps|)
    decreases |ps|
  {
    if ps != [] {
      FirstBytes(ps, rest);
      var t := PropsBytes(ps[1..]) + rest;
      PropFits(ps[0], t);
      ParsesProp(ps[0], t);
      PropsFit(t, ps[1..], rest);
    }
  }

  /** A frame that ends within the string of its last property makes the code read beyond it. */
  lemma CutStringsOverrun(s: seq<Byte>, cut: seq<Byte>, ps: seq<Prop>, key: seq<Byte>, text: seq<Byte>)
    requires Legal(ps) && AllAccepted(ps) && Fits(key) && Fits(text)
    requires s == PropsBytes(ps) + PropBytes(Prop(key, Str(text))) && cut <= s && |s| - |text| <= |cut| < |s|
    ensures PropsOverrun(cut, |ps| + 1)
  {
    var last := CutString(key, text, |s| - |cut|);
    CutBehind(PropsBytes(ps), PropBytes(Prop(key, Str(text))), last, cut);
    OverrunsBehind(cut, ps, last);
  }

  lemma CutBehind(a: seq<Byte>, b: seq<Byte>, b': seq<Byte>, cut: seq<Byte>)
    requires b' <= b && cut <= a + b && |cut| == |a| + |b'|
    ensures cut == a + b'
  {
  }

  lemma {:induction false} OverrunsBehind(s: seq<Byte>, ps: seq<Prop>, cut: seq<Byte>)
    requires Legal(ps) && AllAccepted(ps) && s == PropsBytes(ps) + cut && PropOverruns(cut)
    ensures PropsOverrun(s, |ps| + 1)
    decreases |ps|
  {
    if ps == [] {
      assert s == cut;
    } else {
      FirstBytes(ps, cut);
      var t := PropsBytes(ps[1..]) + cut;
      ParsesProp(ps[0], t);
      OverrunsBehind(t, ps[1..], cut);
      OverrunStep(s, |ps| + 1, ps[0], t);
    }
  }

  lemma OverrunStep(s: seq<Byte>, count: nat, p: Prop, t: seq<Byte>)
    requires count > 0 && ParseProp(s).Some? && s[ParseProp(s).value.1..] == t && PropsOverrun(t, count - 1)
    ensures PropsOverrun(s, count)
  {
  }

  lemma CutString(key: seq<Byte>, text: seq<Byte>, k: nat) returns (cut: seq<Byte>)
    requires Fits(key) && Fits(text) && 0 < k <= |text|
    ensures var b := PropBytes(Prop(key, Str(text))); |b| >= k && cut == b[..|b| - k]
    ensures PropOverruns(cut)
  {
    var b, left := PropBytes(Prop(key, Str(text))), text[..|text| - k];
    cut := b[..|b| - k];
    assert cut == Text(key) + ([0x02] + (Be(|text|, 2) + left));
    WordOfText(key, [0x02] + (Be(|text|, 2) + left));
    WordOfBe(|text|, left);
    assert cut[2 + |key|..] == [0x02] + (Be(|text|, 2) + left);
    assert cut[2 + |key|..][1..] == Be(|text|, 2) + left;
  }

  /** No string of a frame that came in whole reaches beyond it, accepted or not. */
  lemma WholeFramesFit(command: seq<Byte>, name: seq<Byte>, ps: seq<Prop>, rest: seq<Byte>)
    requires |command| <= 0xFFFF && |name| <= 0xFFFF && |ps| < 0x1_0000_0000 && Legal(ps)
    ensures !FrameOverruns(FrameBytes(command, name, ps) + rest)
  {
    var s, k := FrameBytes(command, name, ps) + rest, HeadSize(command, name);
    FrameInParts(command, name, ps, rest);
    ParsesHead(s, command, name, |ps|, PropsBytes(ps) + rest);
    PropsFit(s[k..], ps, rest);
  }

  lemma FrameOf(s: seq<Byte>, k: nat, ps: seq<Prop>, ok: bool, more: bool)
    requires k <= |s| && FrameHead(s) == if ok then Some((k, |ps|)) else None
    requires var r := ParseProps(s[k..], |ps|); (r.Some? <==> more) && (r.Some? ==> r.value.0 == ps)
    ensures var r := ParseFrame(s); (r.Some? <==> ok && more) && (r.Some? ==> r.value.0 == ps)
  {
  }

  lemma FrameInParts(command: seq<Byte>, name: seq<Byte>, ps: seq<Prop>, rest: seq<Byte>)
    requires Legal(ps)
    ensures FrameBytes(command, name, ps) + rest ==
      [0x02] + Text(command) + ([0x02] + Text(name) + ([0x08] + Be(|ps|, 4) + (PropsBytes(ps) + rest)))
  {
    Regroup3([0x08] + Be(|ps|, 4), PropsBytes(ps), rest);
    Regroup3([0x02] + Text(name), [0x08] + Be(|ps|, 4) + PropsBytes(ps), rest);
    Regroup3([0x02] + Text(command), [0x02] + Text(name) + ([0x08] + Be(|ps|, 4) + PropsBytes(ps)), rest);
  }

  lemma Regroup3(a: seq<Byte>, b: seq<Byte>, d: seq<Byte>)
    ensures a + b + d == a + (b + d)
  {
  }

  /** It happens: an array whose only value is an empty string is refused. */
  lemma EmptyStringIsRefused(rest: seq<Byte>)
    ensures ParseFrame(FrameBytes([0x61], [0x62], [Prop([0x63], Str([]))]) + rest).None?
  {
    var p := Prop([0x63], Str([]));
    assert !AllAccepted([p]);
    AcceptedIff([0x61], [0x62], [p], rest);
  }

  // ---------- And only encoded arrays are ----------

  lemma ValIsEncoded(s: seq<Byte>)
    requires ParseVal(s).Some?
    ensures var (v, n) := ParseVal(s).value; LegalVal(v) && AcceptedVal(v) && ValBytes(v) == s[..n]
  {
    if s[0] == 0x00 {
      ReversedTwice(s[1..9]);
      assert [s[0]] + s[1..9] == s[..9];
    } else if s[0] == 0x01 {
      assert [s[0], s[1]] == s[..2];
    } else {
      TextIsEncoded(s[1..]);
      var n := Word(s[1..]);
      assert s[1..][2..2 + n] == s[3..3 + n] && [s[0]] + s[1..][..2 + n] == s[..3 + n];
    }
  }

  lemma TextIsEncoded(s: seq<Byte>)
    requires |s| >= 2 && 0 < Word(s) < 0x8000 && 2 + Word(s) <= |s|
    ensures Text(s[2..2 + Word(s)]) == s[..2 + Word(s)]
  {
    BeOfWord(s);
    assert s[..2] + s[2..2 + Word(s)] == s[..2 + Word(s)];
  }

  lemma PropIsEncoded(s: seq<Byte>)
    requires ParseProp(s).Some?
    ensures var (p, n) := ParseProp(s).value; LegalProp(p) && AcceptedProp(p) && PropBytes(p) == s[..n]
  {
    TextIsEncoded(s);
    ValIsEncoded(s[2 + Word(s)..]);
    Prefixes(s, 2 + Word(s), ParseVal(s[2 + Word(s)..]).value.1);
  }

  lemma {:induction false} PropsAreEncoded(s: seq<Byte>, count: nat)
    requires ParseProps(s, count).Some?
    ensures var (ps, m) := ParseProps(s, count).value;
      |ps| == count && Legal(ps) && AllAccepted(ps) && PropsBytes(ps) == s[..m]
    decreases count
  {
    if count > 0 {
      var (p, n) := ParseProp(s).value;
      PropIsEncoded(s);
      PropsAreEncoded(s[n..], count - 1);
      EncodedStep(p, n, ParseProps(s[n..], count - 1).value.0, ParseProps(s[n..], count - 1).value.1, s);
    }
  }

  lemma EncodedStep(p: Prop, n: nat, qs: seq<Prop>, k: nat, s: seq<Byte>)
    requires LegalProp(p) && AcceptedProp(p) && Legal(qs) && AllAccepted(qs) && n + k <= |s|
    requires PropBytes(p) == s[..n] && PropsBytes(qs) == s[n..][..k]
    ensures var ps := [p] + qs; Legal(ps) && AllAccepted(ps) && PropsBytes(ps) == s[..n + k]
  {
    var ps := [p] + qs;
    assert ps[0] == p && ps[1..] == qs;
    Prefixes(s, n, k);
  }

  /** The two strings in front of the array, as their bytes. */
  function CommandOf(s: seq<Byte>): seq<Byte>
    requires FrameHead(s).Some?
  {
    s[3..StringSize(s).value]
  }

  function NameOf(s: seq<Byte>): seq<Byte>
    requires FrameHead(s).Some?
  {
    s[StringSize(s).value..][3..StringSize(s[StringSize(s).value..]).value]
  }

  lemma StringIsEncoded(s: seq<Byte>)
    requires StringSize(s).Some? && StringSize(s).value <= |s|
    ensures var n := StringSize(s).value; Fits(s[3..n]) && [0x02] + Text(s[3..n]) == s[..n]
  {
    TextIsEncoded(s[1..]);
    var n := Word(s[1..]);
    assert s[1..][2..2 + n] == s[3..3 + n] && [s[0]] + s[1..][..2 + n] == s[..3 + n];
  }

  lemma CountIsEncoded(t: seq<Byte>)
    requires |t| >= 5 && t[0] == 0x08 && Count(t[1..]) > 0
    ensures Count(t[1..]) < 0x8000_0000 && [0x08] + Be(Count(t[1..]), 4) == t[..5]
  {
    var b := t[1..][..4];
    ValueBound(Reversed(b));
    BeOfValue(b);
    assert b == t[1..5] && [t[0]] + t[1..5] == t[..5];
  }

  lemma ValueBound(s: seq<Byte>)
    requires |s| == 4
    ensures Value(s) < 0x1_0000_0000
  {
    assert s[1..][1..] == s[2..] && s[2..][1..] == s[3..] && s[3..][1..] == [];
    assert Value(s[3..]) < 0x100;
    assert Value(s[2..]) < 0x1_0000;
    assert Value(s[1..]) < 0x100_0000;
  }

  /** What stands in front of the properties. */
  lemma HeadIsEncoded(s: seq<Byte>)
    requires FrameHead(s).Some?
    ensures var (k, n) := FrameHead(s).value;
      && Fits(CommandOf(s)) && Fits(NameOf(s)) && 0 < n < 0x8000_0000
      && [0x02] + Text(CommandOf(s)) + ([0x02] + Text(NameOf(s)) + ([0x08] + Be(n, 4))) == s[..k]
  {
    var a := StringSize(s).value;
    var b := StringSize(s[a..]).value;
    StringIsEncoded(s);
    StringIsEncoded(s[a..]);
    Twice(s, a, b);
    CountIsEncoded(s[a + b..]);
    HeadPieces(s, a, b);
  }

  lemma HeadPieces(s: seq<Byte>, a: nat, b: nat)
    requires a + b + 5 <= |s|
    ensures s[..a] + (s[a..][..b] + s[a + b..][..5]) == s[..a + b + 5]
  {
  }

  /** A message is accepted only if it begins with the encoding of an array, of the kind that AcceptedIff names. */
  lemma OnlyFramesAreAccepted(s: seq<Byte>)
    requires ParseFrame(s).Some?
    ensures var (ps, start, end) := ParseFrame(s).value;
      && Fits(CommandOf(s)) && Fits(NameOf(s)) && 0 < |ps| < 0x8000_0000 && Legal(ps) && AllAccepted(ps)
      && FrameBytes(CommandOf(s), NameOf(s), ps) == s[..end]
  {
    var (k, n) := FrameHead(s).value;
    HeadIsEncoded(s);
    PropsAreEncoded(s[k..], n);
    var (ps, m) := ParseProps(s[k..], n).value;
    FrameJoins([0x02] + Text(CommandOf(s)), [0x02] + Text(NameOf(s)), [0x08] + Be(n, 4), PropsBytes(ps), s, k, m);
  }

  lemma FrameJoins(a: seq<Byte>, b: seq<Byte>, d: seq<Byte>, e: seq<Byte>, s: seq<Byte>, k: nat, m: nat)
    requires k + m <= |s| && a + (b + d) == s[..k] && e == s[k..][..m]
    ensures a + (b + (d + e)) == s[..k + m]
  {
    Regroup(b, d, e);
    Regroup(a, b + d, e);
    Prefixes(s, k, m);
  }

  // ---------- Metadata in chunks ----------

  /**
   * SetDataFrame::read_payload takes the payload as it is on the wire: it gets what was sent, and leaves what follows,
   * exactly if there is one chunk.
   */
  lemma UnchunkedIsRightIff(p: seq<Byte>, c: nat, h: Byte, rest: seq<Byte>)
    requires c > 0
    ensures var s := Chunking.Chunks(p, c, h) + rest;
      |s| >= |p| && (s[..|p|] == p && s[|p|..] == rest <==> |p| <= c)
  {
    Chunking.ChunksLength(p, c, h);
    if |p| > c {
      Chunking.FirstWire(|p|, c);
      Chunking.WireIsLonger(|p| - c, c);
    }
  }

  /** It happens: of a frame in chunks of one byte, the second byte that is read is a chunk header. */
  lemma ChunkedIsMisread(rest: seq<Byte>)
    ensures (Chunking.Chunks([2, 0], 1, 0xC4) + rest)[..2] == [2, 0xC4]
  {
    assert [2, 0][..1] == [2] && [2, 0][1..] == [0];
    assert Chunking.Chunks([2, 0], 1, 0xC4) == [2] + [0xC4] + Chunking.Chunks([0], 1, 0xC4);
  }

  // ---------- The handlers ----------

  /** What the loop over the properties comes to. */
  datatype Reading = Accepted(props: seq<Prop>) | Refused | Overrun

  function Prepend(p: Prop, r: Reading): Reading {
    if r.Accepted? then Accepted([p] + r.props) else r
  }

  ghost predicate RestAt(rest: (int, int) -> Reading, data: seq<Byte>, i: int, p: int) {
    0 <= i && 0 <= p <= |data| ==>
      if i == 0 then rest(i, p) == Accepted([])
      else
        var v := ParseProp(data[p..]);
        rest(i, p) ==
          if PropOverruns(data[p..]) then Overrun
          else if v.None? then Refused
          else Prepend(v.value.0, rest(i - 1, p + v.value.1))
  }

  /** rest(i, p) is the reading of the i properties from p on. */
  ghost predicate IsRest(rest: (int, int) -> Reading, data: seq<Byte>) {
    forall i, p {:trigger RestAt(rest, data, i, p)} :: RestAt(rest, data, i, p)
  }

  function PropsOf(s: seq<Byte>, count: nat): Reading {
    if PropsOverrun(s, count) then Overrun
    else if ParseProps(s, count).None? then Refused
    else Accepted(ParseProps(s, count).value.0)
  }

  ghost function RestOf(data: seq<Byte>): (rest: (int, int) -> Reading)
    ensures IsRest(rest, data) && forall i, p :: 0 <= i && 0 <= p <= |data| ==> rest(i, p) == PropsOf(data[p..], i)
  {
    var rest := (i: int, p: int) => if 0 <= i && 0 <= p <= |data| then PropsOf(data[p..], i) else Refused;
    RestFacts(rest, data);
    rest
  }

  lemma RestFacts(rest: (int, int) -> Reading, data: seq<Byte>)
    requires forall i, p :: 0 <= i && 0 <= p <= |data| ==> rest(i, p) == PropsOf(data[p..], i)
    ensures IsRest(rest, data)
  {
    forall i, p ensures RestAt(rest, data, i, p) {
      if 0 < i && 0 <= p <= |data| { RestStep(data, i, p); } else if i == 0 && 0 <= p <= |data| { NoneLeft(data[p..]); }
    }
  }

  lemma NoneLeft(s: seq<Byte>)
    ensures PropsOf(s, 0) == Accepted([])
  {
  }

  /** Only a property that does not parse overruns. */
  lemma OverrunsAreRefused(s: seq<Byte>)
    ensures PropOverruns(s) ==> ParseProp(s).None?
  {
  }

  lemma {:induction false} PropsOverrunsAreRefused(s: seq<Byte>, count: nat)
    ensures PropsOverrun(s, count) ==> ParseProps(s, count).None?
    decreases count
  {
    OverrunsAreRefused(s);
    if count > 0 && ParseProp(s).Some? { PropsOverrunsAreRefused(s[ParseProp(s).value.1..], count - 1); }
  }

  lemma RestStep(data: seq<Byte>, i: nat, p: nat)
    requires i > 0 && p <= |data|
    ensures var v := ParseProp(data[p..]);
      PropsOf(data[p..], i) ==
        if PropOverruns(data[p..]) then Overrun
        else if v.None? then Refused
        else Prepend(v.value.0, PropsOf(data[p + v.value.1..], i - 1))
  {
    FirstOf(data[p..], i);
    var v := ParseProp(data[p..]);
    if v.Some? { assert data[p..][v.value.1..] == data[p + v.value.1..]; }
  }

  lemma FirstOf(s: seq<Byte>, i: nat)
    requires i > 0
    ensures var v := ParseProp(s);
      PropsOf(s, i) ==
        if PropOverruns(s) then Overrun
        else if v.None? then Refused
        else Prepend(v.value.0, PropsOf(s[v.value.1..], i - 1))
  {
    if ParseProp(s).Some? {
      OverrunsAreRefused(s);
      FirstIs(s, i, ParseProp(s).value.0, s[ParseProp(s).value.1..]);
    }
  }

  lemma FirstIs(s: seq<Byte>, i: nat, p: Prop, t: seq<Byte>)
    requires i > 0 && ParseProp(s).Some? && p == ParseProp(s).value.0 && t == s[ParseProp(s).value.1..]
    requires !PropOverruns(s)
    ensures PropsOf(s, i) == Prepend(p, PropsOf(t, i - 1))
  {
    assert PropsOverrun(s, i) == PropsOverrun(t, i - 1);
    ParseStep(s, i);
  }

  predicate SameReading(a: Reading, b: Reading) {
    a == b || (a.Accepted? && b.Accepted?)
  }

  /** The message buffer and the global table set_data_frame. */
  class MetadataHandler {
    const buffer: ObjectBuffer
    var setDataFrame: seq<Prop>

    constructor (buffer: ObjectBuffer)
      ensures this.buffer == buffer && setDataFrame == []
    {
      this.buffer, setDataFrame := buffer, [];
    }

    /** One property of the array: the body of the loop in SetDataFrame::read_payload. */
    method ReadProp(p0: nat) returns (rc: int, p: nat, overrun: bool)
      requires p0 <= |buffer.data|
      modifies `setDataFrame
      ensures overrun == PropOverruns(buffer.data[p0..])
      ensures rc == if ParseProp(buffer.data[p0..]).None? then -1 else 0
      ensures rc == 0 ==> p == p0 + ParseProp(buffer.data[p0..]).value.1 <= |buffer.data|
      ensures setDataFrame == old(setDataFrame) + if rc == 0 then [ParseProp(buffer.data[p0..]).value.0] else []
    {
      ghost var s := buffer.data[p0..];
      var size := |buffer.data|;
      p, overrun := p0, false;
      if p + 2 > size { return -1, p, false; }
      var len := Word(buffer.data[p..]);
      if !(0 < len < 0x8000) { return -1, p, false; }
      p := p + 2;
      if p + len >= size { return -1, p, false; }
      var key := buffer.data[p..p + len];
      assert key == s[2..2 + len];
      p := p + len;
      assert buffer.data[p..] == s[2 + len..];
      var v, n;
      rc, v, n, overrun := ReadVal(p);
      if rc == -1 { return; }
      setDataFrame := setDataFrame + [Prop(key, v)];
      p := n;
    }

    method ReadVal(p0: nat) returns (rc: int, v: Val, p: nat, overrun: bool)
      requires p0 < |buffer.data|
      ensures overrun == ValOverruns(buffer.data[p0..])
      ensures rc == if ParseVal(buffer.data[p0..]).None? then -1 else 0
      ensures rc == 0 ==> (v, p - p0) == ParseVal(buffer.data[p0..]).value
    {
      ghost var s := buffer.data[p0..];
      var data := buffer.data;
      v, p, overrun := Flag(0), p0, false;
      if data[p] == 0x00 {
        p := p + 1;
        if p + 8 > |data| { return -1, v, p, false; }
        v := Num(Reversed(data[p..p + 8]));
        assert data[p..p + 8] == s[1..9];
        p := p + 8;
      } else if data[p] == 0x01 {
        p := p + 1;
        if p >= |data| { return -1, v, p, false; }
        v := Flag(data[p]);
        p := p + 1;
      } else if data[p] == 0x02 {
        p := p + 1;
        if p + 2 > |data| { return -1, v, p, false; }
        var len := Word(data[p..]);
        assert data[p..] == s[1..];
        p := p + 2;
        if !(0 < len < 0x8000) { return -1, v, p, false; }
        // Not in the code, which reads on.
        if p + len > |data| { return -1, v, p, true; }
        v := Str(data[p..p + len]);
        assert p == p0 + 3 && s[3..3 + len] == data[p0 + 3..p0 + 3 + len];
        p := p + len;
      } else {
        return -1, v, p, false;
      }
      rc := 0;
    }

    /** The loop of SetDataFrame::read_payload over the properties of the array; rest(i, p) is what i more come to. */
    method ReadProps(p0: nat, count: nat, ghost rest: (int, int) -> Reading) returns (rc: int, overrun: bool)
      requires p0 <= |buffer.data| && IsRest(rest, buffer.data)
      modifies `setDataFrame
      ensures rc == (if rest(count, p0).Accepted? then 0 else -1) && overrun == rest(count, p0).Overrun?
      ensures rc == 0 ==> setDataFrame == old(setDataFrame) + rest(count, p0).props
    {
      var p: nat, i := p0, 0;
      while i < count
        invariant i <= count && p <= |buffer.data| && SameReading(rest(count, p0), rest(count - i, p))
        invariant rest(count, p0).Accepted? ==>
          old(setDataFrame) + rest(count, p0).props == setDataFrame + rest(count - i, p).props
      {
        assert RestAt(rest, buffer.data, count - i, p);
        rc, p, overrun := ReadProp(p);
        if rc == -1 { return; }
        i := i + 1;
      }
      assert RestAt(rest, buffer.data, 0, p);
      rc, overrun := 0, false;
    }

    /** A string behind its marker; p may end up behind the message, which the next check finds. */
    method SkipString(p0: nat) returns (rc: int, p: nat)
      requires p0 <= |buffer.data|
      ensures rc == if StringSize(buffer.data[p0..]).None? then -1 else 0
      ensures rc == 0 ==> p == p0 + StringSize(buffer.data[p0..]).value
    {
      p := p0;
      if p >= |buffer.data| || buffer.data[p] != 0x02 { return -1, p; }
      p := p + 1;
      if p + 2 > |buffer.data| { return -1, p; }
      assert buffer.data[p..] == buffer.data[p0..][1..];
      var len := Word(buffer.data[p..]);
      if !(0 < len < 0x8000) { return -1, p; }
      p := p + 2 + len;
      rc := 0;
    }

    /** The checks of SetDataFrame::read_payload before its loop. */
    method ReadHead(p0: nat) returns (rc: int, p: nat, count: nat)
      requires p0 <= |buffer.data|
      ensures rc == if FrameHead(buffer.data[p0..]).None? then -1 else 0
      ensures rc == 0 ==> p >= p0 && (p - p0, count) == FrameHead(buffer.data[p0..]).value
    {
      var size := |buffer.data|;
      ghost var s := buffer.data[p0..];
      count := 0;
      rc, p := SkipString(p0);
      if rc == -1 { return; }
      if p > size { return -1, p, count; }
      ghost var a := p - p0;
      assert buffer.data[p..] == s[a..];
      rc, p := SkipString(p);
      if rc == -1 { return; }
      if p >= size || buffer.data[p] != 0x08 { return -1, p, count; }
      ghost var b := p - p0;
      assert buffer.data[p..] == s[b..];
      p := p + 1;
      if p + 4 > size { return -1, p, count; }
      assert buffer.data[p..] == s[b..][1..];
      var n := Count(buffer.data[p..]);
      if n <= 0 { return -1, p, count; }
      p, count := p + 4, n;
      rc := 0;
    }

    /**
     * SetDataFrame::read_payload, behind the headers; it stops where the code would read beyond the message, which no
     * frame that came in whole makes it do.
     */
    method ReadFrame(p0: nat) returns (rc: int, overrun: bool)
      requires p0 <= |buffer.data|
      modifies `setDataFrame
      ensures overrun == FrameOverruns(buffer.data[p0..]) && (overrun ==> rc == -1)
      ensures rc == if ParseFrame(buffer.data[p0..]).None? then -1 else 0
      ensures rc == 0 ==> setDataFrame == old(setDataFrame) + ParseFrame(buffer.data[p0..]).value.0
    {
      var p, count;
      rc, p, count := ReadHead(p0);
      if rc == -1 { return -1, false; }
      assert buffer.data[p..] == buffer.data[p0..][p - p0..];
      PropsOverrunsAreRefused(buffer.data[p..], count);
      rc, overrun := ReadProps(p, count, RestOf(buffer.data));
    }

    /** SetDataFrame::read_payload: as many bytes as the message has, then the array behind the headers. */
    method ReadPayload(io: Chunking.Receiver, messageLength: nat) returns (rc: int, overrun: bool)
      modifies io, buffer, `setDataFrame
      ensures overrun ==> rc == -1 && messageLength <= |old(io.input)| && FrameOverruns(old(io.input)[..messageLength])
      ensures (rc == 0 || rc == -1) && (io.failed ==> old(io.failed) || rc == -1)
      ensures rc == -1 ==>
        || io.failed
        || (messageLength <= |old(io.input)| && ParseFrame(old(io.input)[..messageLength]).None?
            && overrun == FrameOverruns(old(io.input)[..messageLength]))
      ensures rc == 0 ==>
        && messageLength <= |old(io.input)| && io.input == old(io.input)[messageLength..]
        && ParseFrame(old(io.input)[..messageLength]).Some?
        && setDataFrame == old(setDataFrame) + ParseFrame(old(io.input)[..messageLength]).value.0
    {
      var size, nread := |io.buffer|, 0;
      rc, nread := io.ReadNbytesCycle(size + messageLength);
      if rc == -1 { return -1, false; }
      buffer.data := io.buffer;
      assert buffer.data[size..] == old(io.input)[..messageLength];
      rc, overrun := ReadFrame(size);
    }

    method PushMetaVal(v: Val) returns (rc: int)
      modifies buffer
      ensures rc == if MetaVal(v).None? then -1 else 0
      ensures rc == 0 ==> buffer.data == old(buffer.data) + MetaVal(v).value
    {
      if v.Flag? {
        buffer.data := buffer.data + [0x01];
        buffer.data := buffer.data + [v.b];
        rc := 0;
      } else if v.Len? {
        rc := -1;
      } else {
        rc := buffer.PushVal(v);
      }
    }

    method PushMetaProp(p: Prop) returns (rc: int)
      modifies buffer
      ensures rc == if MetaProp(p).None? then -1 else 0
      ensures rc == 0 ==> buffer.data == old(buffer.data) + MetaProp(p).value
    {
      rc := buffer.PushText(p.key);
      if rc == -1 { return; }
      rc := PushMetaVal(p.val);
      if rc == 0 { Regroup(old(buffer.data), WriteText(p.key).value, MetaVal(p.val).value); }
    }

    method PushMetaProps(ps: seq<Prop>, ghost ahead: int -> Option<seq<Byte>>) returns (rc: int)
      requires IsAhead(ahead, MetaParts(ps))
      modifies buffer
      ensures rc == (if ahead(0).None? then -1 else 0)
      ensures rc == 0 ==> buffer.data == old(buffer.data) + ahead(0).value
    {
      var j := 0;
      while j < |ps|
        invariant j <= |ps| && (ahead(0).None? <==> ahead(j).None?)
        invariant ahead(0).Some? ==> buffer.data + ahead(j).value == old(buffer.data) + ahead(0).value
      {
        assert AheadAt(ahead, MetaParts(ps), j);
        rc := PushMetaProp(ps[j]);
        if rc == -1 { return; }
        j := j + 1;
      }
      rc := 0;
    }

    method PushHead(command: seq<Byte>)
      modifies buffer
      ensures buffer.data == old(buffer.data) + ([0x02] + Be(|command|, 2) + command)
    {
      buffer.data := buffer.data + [0x02];
      buffer.data := buffer.data + Be(|command|, 2);
      buffer.data := buffer.data + command;
    }

    /** OnMetaData::write_payload; it leaves the server property in the table, so that each call adds one. */
    method WritePayload(command: seq<Byte>) returns (rc: int)
      modifies buffer, `setDataFrame
      ensures setDataFrame == old(setDataFrame) + [SERVER_PROP]
      ensures rc == if MetaData(command, setDataFrame).None? then -1 else 0
      ensures rc == 0 ==> buffer.data == old(buffer.data) + MetaData(command, setDataFrame).value
    {
      PushStart(command);
      setDataFrame := setDataFrame + [SERVER_PROP];
      rc := PushObject(setDataFrame);
      if rc == 0 { Regroup(old(buffer.data), MetaHead(command), MetaProps(setDataFrame).value + END); }
    }

    /** The command and the object marker. */
    method PushStart(command: seq<Byte>)
      modifies buffer
      ensures buffer.data == old(buffer.data) + MetaHead(command)
    {
      PushHead(command);
      buffer.data := buffer.data + [0x03];
      Regroup(old(buffer.data), [0x02] + Be(|command|, 2) + command, [0x03]);
    }

    /** The properties and the end marker. */
    method PushObject(ps: seq<Prop>) returns (rc: int)
      modifies buffer
      ensures rc == if MetaProps(ps).None? then -1 else 0
      ensures rc == 0 ==> buffer.data == old(buffer.data) + (MetaProps(ps).value + END)
    {
      rc := PushMetaProps(ps, Ahead(MetaParts(ps)));
      if rc == -1 { return; }
      buffer.PushEnd();
      Regroup(old(buffer.data), MetaProps(ps).value, END);
    }
  }
}
