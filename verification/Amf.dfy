/**
 * Objects of AMF0 (sections 2.2 to 2.11 of the AMF0 specification): write_object, get_payload_size and read_object.
 * Numbers are kept as the eight bytes of a double in memory.
 */
module Amf {
  import opened Options
  import opened Bytes

  type Double = s: seq<Byte> | |s| == 8 witness [0, 0, 0, 0, 0, 0, 0, 0]

  /** Value_Num, Value_String, Value_0x01 and Value_Len. */
  datatype Val = Num(double: Double) | Str(text: seq<Byte>) | Flag(b: Byte) | Len(n: int)

  datatype Prop = Prop(key: seq<Byte>, val: Val)

  type Object = map<seq<Byte>, Val>

  // ---------- Writing ----------

  /** A length and as many bytes; a length that turns negative as int16_t throws in std::string::append. */
  function WriteText(t: seq<Byte>): Option<seq<Byte>> {
    var n := Wrap16(|t|);
    if n < 0 then None else Some(Be(n, 2) + t[..n])
  }

  function WriteVal(v: Val): Option<seq<Byte>> {
    match v
    case Num(d) => Some([0x00] + Reversed(d))
    case Str(t) => if WriteText(t).None? then None else Some([0x02] + WriteText(t).value)
    case Len(n) => Some([0x08] + Be(n, 4))
    case Flag(_) => None
  }

  function WriteProp(p: Prop): Option<seq<Byte>> {
    if WriteText(p.key).None? || WriteVal(p.val).None? then None
    else Some(WriteText(p.key).value + WriteVal(p.val).value)
  }

  /** Parts one after another, if all of them could be written. */
  function Join(parts: seq<Option<seq<Byte>>>): Option<seq<Byte>> {
    if parts == [] then Some([]) else
      var rest := Join(parts[1..]);
      if parts[0].None? || rest.None? then None else Some(parts[0].value + rest.value)
  }

  function PropParts(ps: seq<Prop>): (r: seq<Option<seq<Byte>>>)
    ensures |r| == |ps|
  {
    seq(|ps|, i requires 0 <= i < |ps| => WriteProp(ps[i]))
  }

  function WriteProps(ps: seq<Prop>): Option<seq<Byte>> {
    Join(PropParts(ps))
  }

  const END: seq<Byte> := [0x00, 0x00, 0x09]

  function WriteOne(ps: seq<Prop>): Option<seq<Byte>> {
    if WriteProps(ps).None? then None else Some([0x03] + WriteProps(ps).value + END)
  }

  function ObjectParts(vec: seq<seq<Prop>>): (r: seq<Option<seq<Byte>>>)
    ensures |r| == |vec|
  {
    seq(|vec|, i requires 0 <= i < |vec| => WriteOne(vec[i]))
  }

  function WriteEach(vec: seq<seq<Prop>>): Option<seq<Byte>> {
    Join(ObjectParts(vec))
  }

  /** What write_object appends: null for no object, and one more end marker after several. */
  function WriteObjects(vec: seq<seq<Prop>>): Option<seq<Byte>> {
    if vec == [] then Some([0x05])
    else if WriteEach(vec).None? then None
    else Some(WriteEach(vec).value + if |vec| > 1 then END else [])
  }

  // ---------- Reading ----------

  /** std::map::insert keeps the binding that is there. */
  function Insert(o: Object, k: seq<Byte>, v: Val): Object {
    if k in o then o else o[k := v]
  }

  /** The value behind a key: the value and how many bytes it takes; None where read_object gives up. */
  function ReadVal(s: seq<Byte>): (r: Option<(Val, nat)>)
    ensures r.Some? ==> 0 < r.value.1
  {
    if s == [] then None
    else if s[0] == 0x00 then (if |s| < 9 then None else Some((Num(Reversed(s[1..9])), 9)))
    else if s[0] == 0x02 then
      if |s| < 3 || Word(s[1..]) == 0 || 3 + Word(s[1..]) > |s| then None
      else Some((Str(s[3..3 + Word(s[1..])]), 3 + Word(s[1..])))
    else if s[0] == 0x01 then Some((Flag(if |s| > 1 then s[1] else 0), 2))
    else None
  }

  /** One property with a key: the rest of the input and the table. */
  function PropStep(s: seq<Byte>, o: Object): (r: Option<(seq<Byte>, Object)>)
    requires |s| >= 2
    ensures r.Some? ==> |r.value.0| < |s|
  {
    var len := Word(s);
    if len >= 0x8000 || 2 + len > |s| then None
    else
      var v := ReadVal(s[2 + len..]);
      if v.None? then None else Some((Drop(s[2 + len..], v.value.1), Insert(o, s[2..2 + len], v.value.0)))
  }

  /** A key of length 0: the object ends (0), one more object follows (1), or an error (-1). */
  function EndStep(s: seq<Byte>): (r: int)
    requires |s| >= 2
    ensures r == 1 ==> |s| > 5
  {
    if |s| == 2 || s[2] != 0x09 then -1
    else if |s| == 3 then 0
    else if |s| == 4 then -1
    else if Word(s[3..]) == 0 then 0
    else if |s| > 5 && s[5] == 0x03 then 1
    else -1
  }

  /** read_object, behind the object marker: whether it succeeds, and the table it fills. */
  function ReadObject(s: seq<Byte>, o: Object): (bool, Object)
    decreases |s|
  {
    if |s| < 2 then (false, o)
    else if Word(s) == 0 then
      if EndStep(s) == 1 then ReadObject(s[6..], o) else (EndStep(s) == 0, o)
    else
      var r := PropStep(s, o);
      if r.None? then (false, o) else ReadObject(r.value.0, r.value.1)
  }

  function Drop(s: seq<Byte>, n: nat): (r: seq<Byte>)
    ensures n > 0 && |s| > 0 ==> |r| < |s|
  {
    if n <= |s| then s[n..] else []
  }

  lemma DropTwice(s: seq<Byte>, n: nat, m: nat)
    requires n <= |s|
    ensures Drop(Drop(s, n), m) == Drop(s, n + m)
  {
  }

  lemma PropIs(s: seq<Byte>, t: seq<Byte>, v: Val, n: nat, o: Object)
    requires |s| >= 2 && Word(s) < 0x8000 && 2 + Word(s) <= |s| && t == s[2 + Word(s)..] && ReadVal(t) == Some((v, n))
    ensures PropStep(s, o) == Some((Drop(t, n), Insert(o, s[2..2 + Word(s)], v)))
  {
  }

  // ---------- Reading undoes writing ----------

  /** Between 1 and 32767 as the int16_t that is written. */
  predicate Readable16(n: nat) {
    Wrap16(n) > 0
  }

  predicate ReadableVal(v: Val) {
    v.Num? || (v.Str? && Readable16(|v.text|))
  }

  predicate ReadableProp(p: Prop) {
    Readable16(|p.key|) && ReadableVal(p.val)
  }

  predicate Readable(ps: seq<Prop>) {
    forall p :: p in ps ==> ReadableProp(p)
  }

  /** What is left of a text whose length was cut to 16 bits. */
  function Cut(t: seq<Byte>): seq<Byte>
    requires Readable16(|t|)
  {
    t[..Wrap16(|t|)]
  }

  function CutVal(v: Val): Val
    requires ReadableVal(v)
  {
    if v.Str? then Str(Cut(v.text)) else v
  }

  /** The table after the properties are inserted in order. */
  function Table(o: Object, ps: seq<Prop>): Object
    decreases |ps|
  {
    if ps == [] then o else Table(Insert(o, ps[0].key, ps[0].val), ps[1..])
  }

  function CutProps(ps: seq<Prop>): (r: seq<Prop>)
    requires Readable(ps)
    ensures |r| == |ps|
  {
    if ps == [] then [] else
      assert ps[0] in ps && forall p :: p in ps[1..] ==> p in ps;
      [Prop(Cut(ps[0].key), CutVal(ps[0].val))] + CutProps(ps[1..])
  }

  lemma {:induction false} CutPropsAt(ps: seq<Prop>, i: nat)
    requires Readable(ps) && i < |ps|
    ensures ps[i] in ps && CutProps(ps)[i] == Prop(Cut(ps[i].key), CutVal(ps[i].val))
  {
    if i > 0 { CutPropsAt(ps[1..], i - 1); }
  }

  lemma ReadsVal(v: Val, rest: seq<Byte>)
    requires WriteVal(v).Some?
    ensures var b := WriteVal(v).value;
      ReadVal(b + rest) == if ReadableVal(v) then Some((CutVal(v), |b|)) else None
  {
    var b := WriteVal(v).value;
    match v
    case Num(d) =>
      assert (b + rest)[1..9] == Reversed(d);
      ReversedTwice(d);
    case Str(t) =>
      var n := Wrap16(|t|);
      assert (b + rest)[1..] == Be(n, 2) + (t[..n] + rest);
      WordOfBe(n, t[..n] + rest);
      assert (b + rest)[3..3 + n] == t[..n];
    case Len(n) =>
  }

  lemma ReadsProp(p: Prop, rest: seq<Byte>, o: Object)
    requires WriteProp(p).Some?
    ensures ReadObject(WriteProp(p).value + rest, o) ==
      if ReadableProp(p) then ReadObject(rest, Insert(o, Cut(p.key), CutVal(p.val))) else (false, o)
  {
    var n := Wrap16(|p.key|);
    var v := WriteVal(p.val).value;
    assert WriteProp(p).value + rest == Be(n, 2) + (p.key[..n] + (v + rest));
    ReadsVal(p.val, rest);
    if n == 0 {
      assert p.key[..0] + (v + rest) == v + rest;
      ReadsNoKey(v + rest, o);
    } else {
      ReadsKey(p.key[..n], v + rest, o);
      assert (v + rest)[|v|..] == rest;
    }
  }

  /** A key of length zero is taken for an end marker. */
  lemma ReadsNoKey(t: seq<Byte>, o: Object)
    requires t != [] && t[0] != 0x09
    ensures ReadObject(Be(0, 2) + t, o) == (false, o)
  {
    WordOfBe(0, t);
  }

  lemma ReadsKey(key: seq<Byte>, t: seq<Byte>, o: Object)
    requires 0 < |key| < 0x8000
    ensures ReadObject(Be(|key|, 2) + (key + t), o) ==
      if ReadVal(t).None? then (false, o)
      else ReadObject(Drop(t, ReadVal(t).value.1), Insert(o, key, ReadVal(t).value.0))
  {
    var s := Be(|key|, 2) + (key + t);
    WordOfBe(|key|, key + t);
    assert s[2..2 + |key|] == key && s[2 + |key|..] == t;
  }

  lemma ReadsEnd(o: Object)
    ensures ReadObject(END, o) == (true, o)
  {
    assert END == Be(0, 2) + [0x09];
    WordOfBe(0, [0x09]);
  }

  lemma FirstProp(ps: seq<Prop>)
    requires ps != []
    ensures WriteProps(ps) ==
      if WriteProp(ps[0]).None? || WriteProps(ps[1..]).None? then None
      else Some(WriteProp(ps[0]).value + WriteProps(ps[1..]).value)
  {
    assert PropParts(ps)[1..] == PropParts(ps[1..]);
  }

  lemma {:induction false} ReadsProps(ps: seq<Prop>, o: Object)
    requires WriteProps(ps).Some?
    ensures var r := ReadObject(WriteProps(ps).value + END, o);
      r.0 == Readable(ps) && (Readable(ps) ==> r.1 == Table(o, CutProps(ps)))
    decreases |ps|
  {
    if ps == [] {
      assert [] + END == END;
      ReadsEnd(o);
    } else {
      FirstProp(ps);
      var rest := WriteProps(ps[1..]).value;
      assert WriteProps(ps).value + END == WriteProp(ps[0]).value + (rest + END);
      ReadsProp(ps[0], rest + END, o);
      assert ps == [ps[0]] + ps[1..];
      if ReadableProp(ps[0]) {
        ReadsProps(ps[1..], Insert(o, Cut(ps[0].key), CutVal(ps[0].val)));
      }
    }
  }

  /**
   * An object of write_object is read back exactly if every key and string has a length of 1 to 32767 as int16_t and
   * every value is a number or a string; the table then holds what was written.
   */
  lemma ReadIff(ps: seq<Prop>)
    requires WriteOne(ps).Some?
    ensures WriteOne(ps).value[0] == 0x03
    ensures var r := ReadObject(WriteOne(ps).value[1..], map[]);
      r.0 == Readable(ps) && (Readable(ps) ==> r.1 == Table(map[], CutProps(ps)))
  {
    ReadsProps(ps, map[]);
    Tail(0x03, WriteProps(ps).value, END);
  }

  lemma Tail(b: Byte, x: seq<Byte>, y: seq<Byte>)
    ensures ([b] + x + y)[0] == b && ([b] + x + y)[1..] == x + y
  {
  }

  /** The first binding of a key is the one that counts. */
  lemma {:induction false} TableHasFirst(o: Object, ps: seq<Prop>, k: seq<Byte>, i: nat)
    requires k !in o && i <= |ps| && forall j :: 0 <= j < i ==> ps[j].key != k
    ensures i == |ps| ==> k !in Table(o, ps)
    ensures i < |ps| && ps[i].key == k ==> k in Table(o, ps) && Table(o, ps)[k] == ps[i].val
    decreases |ps|
  {
    if ps != [] {
      if i == 0 {
        TableKeeps(Insert(o, ps[0].key, ps[0].val), ps[1..], ps[0].key);
      } else {
        TableHasFirst(Insert(o, ps[0].key, ps[0].val), ps[1..], k, i - 1);
      }
    }
  }

  lemma {:induction false} TableKeeps(o: Object, ps: seq<Prop>, k: seq<Byte>)
    requires k in o
    ensures k in Table(o, ps) && Table(o, ps)[k] == o[k]
    decreases |ps|
  {
    if ps != [] { TableKeeps(Insert(o, ps[0].key, ps[0].val), ps[1..], k); }
  }

  predicate Fits(t: seq<Byte>) {
    1 <= |t| <= 0x7FFF
  }

  /** Keys and strings of 1 to 32767 bytes, values numbers or strings. */
  predicate Exact(ps: seq<Prop>) {
    forall p :: p in ps ==> Fits(p.key) && (p.val.Num? || (p.val.Str? && Fits(p.val.text)))
  }

  lemma {:induction false} ExactIsWritten(ps: seq<Prop>)
    requires Exact(ps)
    ensures WriteOne(ps).Some? && Readable(ps) && CutProps(ps) == ps
    decreases |ps|
  {
    if ps != [] {
      assert ps[0] in ps && ps == [ps[0]] + ps[1..];
      ExactIsWritten(ps[1..]);
      FirstProp(ps);
      assert ps[0].key[..|ps[0].key|] == ps[0].key;
      if ps[0].val.Str? { assert ps[0].val.text[..|ps[0].val.text|] == ps[0].val.text; }
    }
  }

  /** Such an object comes back as its first bindings, every number with its eight bytes. */
  lemma RoundTrip(ps: seq<Prop>)
    requires Exact(ps)
    ensures WriteOne(ps).Some? && ReadObject(WriteOne(ps).value[1..], map[]) == (true, Table(map[], ps))
  {
    ExactIsWritten(ps);
    ReadIff(ps);
  }

  ghost predicate DistinctKeys(ps: seq<Prop>) {
    forall i, j :: 0 <= i < j < |ps| ==> ps[i].key != ps[j].key
  }

  /** With distinct keys, no other object comes back as it was. */
  lemma RoundTripIff(ps: seq<Prop>)
    requires DistinctKeys(ps)
    ensures (WriteOne(ps).Some? && ReadObject(WriteOne(ps).value[1..], map[]) == (true, Table(map[], ps))) <==>
      Exact(ps)
  {
    if Exact(ps) {
      RoundTrip(ps);
    } else if WriteOne(ps).Some? {
      ReadIff(ps);
      if Readable(ps) { CutShows(ps); }
    }
  }

  lemma CutIsShort(t: seq<Byte>)
    requires Readable16(|t|)
    ensures |Cut(t)| < 0x8000 && (Fits(t) ==> Cut(t) == t) && (!Fits(t) ==> |t| >= 0x8000)
  {
    if Fits(t) { assert t[..|t|] == t; }
  }

  /** A key that was cut is missed in the table. */
  lemma CutKeyShows(ps: seq<Prop>, i: nat)
    requires DistinctKeys(ps) && Readable(ps) && i < |ps| && !Fits(ps[i].key)
    ensures Table(map[], CutProps(ps)) != Table(map[], ps)
  {
    var k := ps[i].key;
    assert ps[i] in ps;
    CutIsShort(k);
    TableHasFirst(map[], ps, k, i);
    forall j | 0 <= j < |ps| ensures CutProps(ps)[j].key != k {
      CutPropsAt(ps, j);
      CutIsShort(ps[j].key);
    }
    TableHasFirst(map[], CutProps(ps), k, |ps|);
  }

  /** So is a string. */
  lemma CutStringShows(ps: seq<Prop>, i: nat)
    requires DistinctKeys(ps) && Readable(ps) && (forall p :: p in ps ==> Fits(p.key))
    requires i < |ps| && ps[i].val.Str? && !Fits(ps[i].val.text)
    ensures Table(map[], CutProps(ps)) != Table(map[], ps)
  {
    var k := ps[i].key;
    forall j | 0 <= j < |ps| ensures CutProps(ps)[j].key == ps[j].key {
      CutPropsAt(ps, j);
      CutIsShort(ps[j].key);
    }
    CutPropsAt(ps, i);
    CutIsShort(ps[i].val.text);
    TableHasFirst(map[], ps, k, i);
    TableHasFirst(map[], CutProps(ps), k, i);
  }

  lemma CutShows(ps: seq<Prop>)
    requires DistinctKeys(ps) && Readable(ps) && !Exact(ps)
    ensures Table(map[], CutProps(ps)) != Table(map[], ps)
  {
    if i :| 0 <= i < |ps| && !Fits(ps[i].key) {
      CutKeyShows(ps, i);
    } else {
      var p :| p in ps && !(Fits(p.key) && (p.val.Num? || (p.val.Str? && Fits(p.val.text))));
      var i :| 0 <= i < |ps| && ps[i] == p;
      CutStringShows(ps, i);
    }
  }

  // ---------- The standard encoding ----------

  /** A string with its length (section 1.3.1 of the AMF0 specification). */
  function Text(t: seq<Byte>): seq<Byte> {
    Be(|t|, 2) + t
  }

  /** Numbers, booleans and strings of at most 65535 bytes, as the specification has them. */
  predicate LegalVal(v: Val) {
    v.Num? || v.Flag? || (v.Str? && |v.text| <= 0xFFFF)
  }

  predicate LegalProp(p: Prop) {
    |p.key| <= 0xFFFF && LegalVal(p.val)
  }

  predicate Legal(ps: seq<Prop>) {
    forall p :: p in ps ==> LegalProp(p)
  }

  function ValBytes(v: Val): seq<Byte>
    requires LegalVal(v)
  {
    match v
    case Num(d) => [0x00] + Reversed(d)
    case Flag(b) => [0x01, b]
    case Str(t) => [0x02] + Text(t)
  }

  function PropBytes(p: Prop): seq<Byte>
    requires LegalProp(p)
  {
    Text(p.key) + ValBytes(p.val)
  }

  function PropsBytes(ps: seq<Prop>): seq<Byte>
    requires Legal(ps)
  {
    if ps == [] then [] else
      assert ps[0] in ps && forall p :: p in ps[1..] ==> p in ps;
      PropBytes(ps[0]) + PropsBytes(ps[1..])
  }

  /** An anonymous object (section 2.5 of the AMF0 specification): its properties up to the end marker. */
  function ObjectBytes(ps: seq<Prop>): seq<Byte>
    requires Legal(ps)
  {
    [0x03] + PropsBytes(ps) + [0x00, 0x00, 0x09]
  }

  /** What write_object can write in full: no booleans, and no length beyond 32767. */
  predicate Writable(p: Prop) {
    |p.key| <= 0x7FFF && (p.val.Num? || (p.val.Str? && |p.val.text| <= 0x7FFF))
  }

  predicate AllWritable(ps: seq<Prop>) {
    forall p :: p in ps ==> Writable(p)
  }

  lemma TextIsStandard(t: seq<Byte>)
    requires |t| <= 0xFFFF
    ensures WriteText(t) == if |t| <= 0x7FFF then Some(Text(t)) else None
  {
    if |t| <= 0x7FFF { assert t[..|t|] == t; }
  }

  lemma PropIsStandard(p: Prop)
    requires LegalProp(p)
    ensures WriteProp(p) == if Writable(p) then Some(PropBytes(p)) else None
  {
    TextIsStandard(p.key);
    if p.val.Str? { TextIsStandard(p.val.text); }
  }

  lemma {:induction false} PropsAreStandard(ps: seq<Prop>)
    requires Legal(ps)
    ensures WriteProps(ps) == if AllWritable(ps) then Some(PropsBytes(ps)) else None
    decreases |ps|
  {
    if ps != [] {
      assert ps[0] in ps && ps == [ps[0]] + ps[1..];
      PropIsStandard(ps[0]);
      PropsAreStandard(ps[1..]);
      FirstProp(ps);
    }
  }

  /** write_object writes a legal object of the standard as such exactly if it can write all of it; else nothing. */
  lemma ObjectIsStandardIff(ps: seq<Prop>)
    requires Legal(ps)
    ensures WriteOne(ps) == if AllWritable(ps) then Some(ObjectBytes(ps)) else None
  {
    PropsAreStandard(ps);
  }

  predicate AllLegal(vec: seq<seq<Prop>>) {
    forall ps :: ps in vec ==> Legal(ps)
  }

  function EachBytes(vec: seq<seq<Prop>>): seq<Byte>
    requires AllLegal(vec)
  {
    if vec == [] then [] else
      assert vec[0] in vec && forall ps :: ps in vec[1..] ==> ps in vec;
      ObjectBytes(vec[0]) + EachBytes(vec[1..])
  }

  /** Several objects one after another, closed by one more end marker; null if there is none. */
  lemma {:induction false} ObjectsAreStandardIff(vec: seq<seq<Prop>>)
    requires AllLegal(vec)
    ensures WriteEach(vec) == if forall ps :: ps in vec ==> AllWritable(ps) then Some(EachBytes(vec)) else None
    ensures vec != [] ==>
      WriteObjects(vec) ==
        if forall ps :: ps in vec ==> AllWritable(ps) then
          Some(EachBytes(vec) + if |vec| == 1 then [] else [0x00, 0x00, 0x09])
        else None
    ensures vec == [] ==> WriteObjects(vec) == Some([0x05])
    decreases |vec|
  {
    if vec != [] {
      assert vec[0] in vec && vec == [vec[0]] + vec[1..];
      ObjectIsStandardIff(vec[0]);
      ObjectsAreStandardIff(vec[1..]);
      assert ObjectParts(vec)[1..] == ObjectParts(vec[1..]);
    }
  }

  /** What read_object takes of the standard: keys of 1 to 32767 bytes and strings that are not empty. */
  predicate Taken(p: Prop) {
    1 <= |p.key| <= 0x7FFF && (p.val.Str? ==> p.val.text != [])
  }

  predicate AllTaken(ps: seq<Prop>) {
    forall p :: p in ps ==> Taken(p)
  }

  lemma StandardVal(v: Val, rest: seq<Byte>)
    requires LegalVal(v)
    ensures ReadVal(ValBytes(v) + rest) == if v == Str([]) then None else Some((v, |ValBytes(v)|))
  {
    match v
    case Num(d) =>
      assert (ValBytes(v) + rest)[1..9] == Reversed(d);
      ReversedTwice(d);
    case Flag(b) =>
    case Str(t) => StandardString(t, rest);
  }

  lemma StandardString(t: seq<Byte>, rest: seq<Byte>)
    requires |t| <= 0xFFFF
    ensures var s := ValBytes(Str(t)) + rest;
      |s| >= 3 + |t| && s[0] == 0x02 && Word(s[1..]) == |t| && s[3..3 + |t|] == t
  {
    var s := ValBytes(Str(t)) + rest;
    assert s[1..] == Be(|t|, 2) + (t + rest);
    WordOfBe(|t|, t + rest);
    assert s[3..3 + |t|] == t;
  }

  lemma StandardProp(p: Prop, rest: seq<Byte>, o: Object)
    requires LegalProp(p)
    ensures ReadObject(PropBytes(p) + rest, o) ==
      if Taken(p) then ReadObject(rest, Insert(o, p.key, p.val)) else (false, o)
  {
    var v := ValBytes(p.val);
    assert PropBytes(p) + rest == Be(|p.key|, 2) + (p.key + (v + rest));
    StandardVal(p.val, rest);
    if p.key == [] {
      assert p.key + (v + rest) == v + rest;
      ReadsNoKey(v + rest, o);
    } else if |p.key| <= 0x7FFF {
      ReadsKey(p.key, v + rest, o);
      assert (v + rest)[|v|..] == rest;
    } else {
      WordOfBe(|p.key|, p.key + (v + rest));
    }
  }

  lemma {:induction false} StandardProps(ps: seq<Prop>, rest: seq<Byte>, o: Object)
    requires Legal(ps)
    ensures AllTaken(ps) ==> ReadObject(PropsBytes(ps) + rest, o) == ReadObject(rest, Table(o, ps))
    ensures !AllTaken(ps) ==> !ReadObject(PropsBytes(ps) + rest, o).0
    decreases |ps|
  {
    if ps == [] {
      assert PropsBytes(ps) + rest == rest;
    } else {
      assert ps[0] in ps && ps == [ps[0]] + ps[1..];
      assert PropsBytes(ps) + rest == PropBytes(ps[0]) + (PropsBytes(ps[1..]) + rest);
      StandardProp(ps[0], PropsBytes(ps[1..]) + rest, o);
      if Taken(ps[0]) { StandardProps(ps[1..], rest, Insert(o, ps[0].key, ps[0].val)); }
    }
  }

  /** A legal object of the standard, booleans included, is read exactly if it is taken so, as its first bindings. */
  lemma StandardIsReadIff(ps: seq<Prop>)
    requires Legal(ps)
    ensures var r := ReadObject(ObjectBytes(ps)[1..], map[]);
      (r.0 <==> AllTaken(ps)) && (r.0 ==> r.1 == Table(map[], ps))
  {
    MarkerOff(PropsBytes(ps));
    ReadsEnd(Table(map[], ps));
    ReadThenEnds(ps);
  }

  lemma MarkerOff(b: seq<Byte>)
    ensures ([0x03] + b + [0x00, 0x00, 0x09])[1..] == b + END
  {
  }

  lemma ReadThenEnds(ps: seq<Prop>)
    requires Legal(ps) && ReadObject(END, Table(map[], ps)) == (true, Table(map[], ps))
    ensures var r := ReadObject(PropsBytes(ps) + END, map[]);
      (r.0 <==> AllTaken(ps)) && (r.0 ==> r.1 == Table(map[], ps))
  {
    StandardProps(ps, END, map[]);
  }

  /**
   * But of two objects one after another, as write_object writes them, reading fails at the second, unless the low byte
   * of its first length looks like an object marker.
   */
  lemma SecondIsRefused(ps: seq<Prop>, qs: seq<Prop>, rest: seq<Byte>)
    requires Legal(ps) && Legal(qs) && (qs == [] || |qs[0].key| % 256 != 3)
    ensures !ReadObject((ObjectBytes(ps) + (ObjectBytes(qs) + rest))[1..], map[]).0
  {
    var t := ObjectBytes(qs) + rest;
    FirstLength(qs, rest);
    EndThenObject(t, Table(map[], ps));
    ThenRefused(ps, t);
  }

  lemma ThenRefused(ps: seq<Prop>, t: seq<Byte>)
    requires Legal(ps) && !ReadObject(END + t, Table(map[], ps)).0
    ensures !ReadObject((ObjectBytes(ps) + t)[1..], map[]).0
  {
    BehindMarker(PropsBytes(ps), t);
    StandardProps(ps, END + t, map[]);
  }

  lemma BehindMarker(b: seq<Byte>, t: seq<Byte>)
    ensures ([0x03] + b + [0x00, 0x00, 0x09] + t)[1..] == b + (END + t)
  {
  }

  /** The marker, and the first two bytes behind it. */
  lemma FirstLength(qs: seq<Prop>, rest: seq<Byte>)
    requires Legal(qs)
    ensures var t := ObjectBytes(qs) + rest;
      |t| >= 4 && t[0] == 0x03 && t[2] == if qs == [] then 0 else |qs[0].key| % 256
  {
    if qs != [] {
      assert qs[0] in qs;
      BeOfTwo(|qs[0].key|);
      var b := PropBytes(qs[0]);
      assert b[1] == |qs[0].key| % 256 && PropsBytes(qs)[1] == b[1];
      assert (ObjectBytes(qs) + rest)[2] == PropsBytes(qs)[1];
    }
  }

  /**
   * Behind the end of an object: nothing, or a length of zero, ends the reading; any other two bytes are skipped, and
   * an object marker behind them begins the next object.
   */
  lemma AfterEnd(ps: seq<Prop>, t: seq<Byte>)
    requires Legal(ps) && AllTaken(ps)
    ensures ReadObject((ObjectBytes(ps) + t)[1..], map[]) ==
      if t == [] || (|t| >= 2 && t[0] == 0 && t[1] == 0) then (true, Table(map[], ps))
      else if |t| >= 3 && t[2] == 0x03 then ReadObject(t[3..], Table(map[], ps))
      else (false, Table(map[], ps))
  {
    BehindMarker(PropsBytes(ps), t);
    StandardProps(ps, END + t, map[]);
    EndThen(t, Table(map[], ps));
  }

  lemma EndThen(t: seq<Byte>, o: Object)
    ensures ReadObject(END + t, o) ==
      if t == [] || (|t| >= 2 && t[0] == 0 && t[1] == 0) then (true, o)
      else if |t| >= 3 && t[2] == 0x03 then ReadObject(t[3..], o)
      else (false, o)
  {
    var s := END + t;
    assert s[0] == 0 && s[1] == 0 && s[2] == 0x09 && s[3..] == t && |s| == 3 + |t|;
    if |t| >= 3 { assert s[5] == t[2] && s[6..] == t[3..]; }
  }

  lemma EndThenObject(t: seq<Byte>, o: Object)
    requires |t| >= 3 && t[0] == 0x03 && t[2] != 0x03
    ensures !ReadObject(END + t, o).0
  {
    var s := END + t;
    assert s[0] == 0 && s[1] == 0 && s[2] == 0x09 && s[3..] == t && s[5] == t[2];
  }

  /** A length with its marker, as four bytes. */
  lemma LenIsWritten(n: int)
    ensures WriteVal(Len(n)).Some?
    ensures var b := WriteVal(Len(n)).value;
      |b| == 5 && b[0] == 0x08 && Value(Reversed(b[1..])) == n % 0x1_0000_0000
  {
    BeRoundTrip(n, 4);
    Widths();
    assert WriteVal(Len(n)).value[1..] == Be(n, 4);
  }

  /** It happens: a number under an empty key is written, and not read back. */
  lemma EmptyKeyIsLost(d: Double)
    ensures WriteOne([Prop([], Num(d))]).Some? && !ReadObject(WriteOne([Prop([], Num(d))]).value[1..], map[]).0
  {
    var p := Prop([], Num(d));
    FirstProp([p]);
    assert [p][1..] == [] && p in [p];
    ReadIff([p]);
  }

  // ---------- The buffer ----------

  /** ahead(j) is what part j and those behind it come to. */
  ghost predicate AheadAt(ahead: int -> Option<seq<Byte>>, parts: seq<Option<seq<Byte>>>, j: int) {
    0 <= j < |parts| ==>
      ahead(j) == if parts[j].None? || ahead(j + 1).None? then None else Some(parts[j].value + ahead(j + 1).value)
  }

  ghost predicate IsAhead(ahead: int -> Option<seq<Byte>>, parts: seq<Option<seq<Byte>>>) {
    ahead(|parts|) == Some([]) && forall j {:trigger AheadAt(ahead, parts, j)} :: AheadAt(ahead, parts, j)
  }

  ghost function Ahead(parts: seq<Option<seq<Byte>>>): (ahead: int -> Option<seq<Byte>>)
    ensures IsAhead(ahead, parts) && ahead(0) == Join(parts)
  {
    var ahead := (j: int) => if 0 <= j <= |parts| then Join(parts[j..]) else None;
    assert IsAhead(ahead, parts) by {
      forall j ensures AheadAt(ahead, parts, j) {
        if 0 <= j < |parts| { assert parts[j..][1..] == parts[j + 1..]; }
      }
    }
    assert parts[0..] == parts;
    ahead
  }

  /** The message buffer as write_object and read_object use it. */
  class ObjectBuffer {
    var data: seq<Byte>

    /** A length and a text; -1 where the length turns negative. */
    method PushText(t: seq<Byte>) returns (rc: int)
      modifies this
      ensures rc == (if WriteText(t).None? then -1 else 0)
      ensures data == old(data) + if rc == 0 then WriteText(t).value else Be(Wrap16(|t|), 2)
    {
      var len := Wrap16(|t|);
      data := data + Be(len, 2);
      if len < 0 { return -1; }
      data := data + t[..len];
      rc := 0;
    }

    method PushVal(v: Val) returns (rc: int)
      modifies this
      ensures rc == (if WriteVal(v).None? then -1 else 0)
      ensures rc == 0 ==> data == old(data) + WriteVal(v).value
    {
      rc := 0;
      match v
      case Str(t) =>
        data := data + [0x02];
        rc := PushText(t);
        if rc == 0 { Regroup(old(data), [0x02], WriteText(t).value); }
      case Num(d) => PushMarked(0x00, Reversed(d));
      case Len(n) => PushMarked(0x08, Be(n, 4));
      case Flag(_) => rc := -1;
    }

    /** A marker and what follows it. */
    method PushMarked(marker: Byte, bytes: seq<Byte>)
      modifies this
      ensures data == old(data) + ([marker] + bytes)
    {
      data := data + [marker];
      data := data + bytes;
    }

    method PushProp(p: Prop) returns (rc: int)
      modifies this
      ensures rc == (if WriteProp(p).None? then -1 else 0)
      ensures rc == 0 ==> data == old(data) + WriteProp(p).value
    {
      rc := PushText(p.key);
      if rc == -1 { return; }
      rc := PushVal(p.val);
      if rc == 0 { Regroup(old(data), WriteText(p.key).value, WriteVal(p.val).value); }
    }

    /** The inner loop of write_object. */
    method PushAll(ps: seq<Prop>, ghost ahead: int -> Option<seq<Byte>>) returns (rc: int)
      requires IsAhead(ahead, PropParts(ps))
      modifies this
      ensures rc == (if ahead(0).None? then -1 else 0)
      ensures rc == 0 ==> data == old(data) + ahead(0).value
    {
      var j := 0;
      while j < |ps|
        invariant j <= |ps| && (ahead(0).None? <==> ahead(j).None?)
        invariant ahead(0).Some? ==> data + ahead(j).value == old(data) + ahead(0).value
      {
        assert AheadAt(ahead, PropParts(ps), j);
        ghost var before := data;
        rc := PushProp(ps[j]);
        if rc == -1 { return; }
        if ahead(j + 1).Some? { Regroup(before, WriteProp(ps[j]).value, ahead(j + 1).value); }
        j := j + 1;
      }
      rc := 0;
    }

    method PushEnd()
      modifies this
      ensures data == old(data) + END
    {
      data := data + Be(0, 2);
      data := data + [0x09];
      assert END == Be(0, 2) + [0x09] by { WordOfBe(0, []); }
    }

    method PushOne(ps: seq<Prop>) returns (rc: int)
      modifies this
      ensures rc == (if WriteOne(ps).None? then -1 else 0)
      ensures rc == 0 ==> data == old(data) + WriteOne(ps).value
    {
      data := data + [0x03];
      rc := PushAll(ps, Ahead(PropParts(ps)));
      if rc == -1 { return; }
      PushEnd();
      Regroup(old(data), [0x03], WriteProps(ps).value);
      Regroup(old(data), [0x03] + WriteProps(ps).value, END);
    }

    /** The outer loop. */
    method PushEach(vec: seq<seq<Prop>>, ghost ahead: int -> Option<seq<Byte>>) returns (rc: int)
      requires IsAhead(ahead, ObjectParts(vec))
      modifies this
      ensures rc == (if ahead(0).None? then -1 else 0)
      ensures rc == 0 ==> data == old(data) + ahead(0).value
    {
      var i := 0;
      while i < |vec|
        invariant i <= |vec| && (ahead(0).None? <==> ahead(i).None?)
        invariant ahead(0).Some? ==> data + ahead(i).value == old(data) + ahead(0).value
      {
        assert AheadAt(ahead, ObjectParts(vec), i);
        ghost var before := data;
        rc := PushOne(vec[i]);
        if rc == -1 { return; }
        if ahead(i + 1).Some? { Regroup(before, WriteOne(vec[i]).value, ahead(i + 1).value); }
        i := i + 1;
      }
      rc := 0;
    }

    /** write_object */
    method WriteObject(vec: seq<seq<Prop>>) returns (rc: int)
      modifies this
      ensures rc == (if WriteObjects(vec).None? then -1 else 0)
      ensures rc == 0 ==> data == old(data) + WriteObjects(vec).value
    {
      if vec == [] {
        data := data + [0x05];
        return 0;
      }
      rc := PushEach(vec, Ahead(ObjectParts(vec)));
      if rc == -1 { return; }
      if |vec| > 1 { PushEnd(); }
    }

    /** From p on; nothing past the end. */
    function From(p: nat): seq<Byte>
      reads this
    {
      Drop(data, p)
    }

    /** The byte at p, and the 0 that ends a std::string. */
    function At(p: nat): Byte
      reads this
    {
      if p < |data| then data[p] else 0
    }

    /** The value branches of read_object. */
    method ReadValue(p0: nat) returns (rc: int, v: Val, p: nat)
      requires p0 <= |data|
      ensures rc == (if ReadVal(From(p0)).None? then -1 else 0)
      ensures rc == 0 ==> v == ReadVal(From(p0)).value.0 && p == p0 + ReadVal(From(p0)).value.1
    {
      v, p := Flag(0), p0;
      ghost var s := From(p0);
      if p < |data| && data[p] == 0x00 {
        p := p + 1;
        if p + 8 > |data| { return -1, v, p; }
        v := Num(Reversed(data[p..p + 8]));
        assert data[p..p + 8] == s[1..9];
        p := p + 8;
      } else if p < |data| && data[p] == 0x02 {
        p := p + 1;
        if p + 2 > |data| { return -1, v, p; }
        var len := Word(data[p..]);
        assert data[p..] == s[1..];
        if len <= 0 { return -1, v, p; }
        p := p + 2;
        if p + len > |data| { return -1, v, p; }
        v := Str(data[p..p + len]);
        assert data[p..p + len] == s[3..3 + len];
        p := p + len;
      } else if p < |data| && data[p] == 0x01 {
        p := p + 1;
        v := Flag(At(p));
        p := p + 1;
      } else {
        return -1, v, p;
      }
      rc := 0;
    }

    method ReadKey(p0: nat, len: nat) returns (rc: int, key: seq<Byte>, p: nat)
      requires p0 + 2 <= |data|
      ensures rc == if len >= 0x8000 || 2 + len > |From(p0)| then -1 else 0
      ensures rc == 0 ==> key == From(p0)[2..2 + len] && p == p0 + 2 + len <= |data| && From(p) == From(p0)[2 + len..]
    {
      key, p := [], p0 + 2;
      if len >= 0x8000 || p + len > |data| { return -1, key, p; }
      key := data[p..p + len];
      p := p + len;
      rc := 0;
    }

    /** The branch of read_object for a key: one property. */
    method ReadProp(p0: nat, len: nat, o0: Object) returns (rc: int, o: Object, p: nat)
      requires p0 + 2 <= |data| && len == Word(From(p0))
      ensures rc == if PropStep(From(p0), o0).None? then -1 else 0
      ensures if rc == -1 then o == o0 else p > p0 && (From(p), o) == PropStep(From(p0), o0).value
    {
      var key, v;
      o := o0;
      rc, key, p := ReadKey(p0, len);
      if rc == -1 { return; }
      ghost var q := p;
      rc, v, p := ReadValue(p);
      if rc == -1 { return; }
      DropTwice(data, q, p - q);
      PropIs(From(p0), From(q), v, p - q, o0);
      o := Insert(o, key, v);
    }

    /** The branch for a length of 0. */
    method ReadEnd(p0: nat) returns (rc: int, p: nat)
      requires p0 + 2 <= |data|
      ensures rc == EndStep(From(p0))
      ensures rc == 1 ==> p > p0 && From(p) == From(p0)[6..]
    {
      ghost var s := From(p0);
      p := p0 + 2;
      if p < |data| && data[p] == 0x09 {
        p := p + 1;
        if p >= |data| { return 0, p; }
        if p + 2 > |data| { return -1, p; }
        assert data[p..] == s[3..];
        if Word(data[p..]) == 0 { return 0, p; }
        p := p + 2;
        if p < |data| && data[p] == 0x03 {
          p := p + 1;
          return 1, p;
        }
      }
      rc := -1;
    }

    /** read_object */
    method ReadObjectAt(p0: nat, o0: Object) returns (rc: int, o: Object)
      requires p0 <= |data|
      ensures (rc == 0, o) == ReadObject(From(p0), o0)
    {
      var p := p0;
      o := o0;
      while p < |data|
        invariant ReadObject(From(p), o) == ReadObject(From(p0), o0)
        decreases |data| - p
      {
        if p + 2 > |data| { return -1, o; }
        var len := Word(From(p));
        if len == 0 {
          var end;
          end, p := ReadEnd(p);
          if end != 1 { return end, o; }
        } else {
          rc, o, p := ReadProp(p, len, o);
          if rc == -1 { return; }
        }
      }
      rc := -1;
    }
  }
}
