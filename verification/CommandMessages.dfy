/** Commands with objects: Send_Object_Message, whose header announces a length computed before the payload exists. */
module CommandMessages {
  import opened Options
  import opened Bytes
  import opened Amf

  /** The payload of write_payload: the command, the transaction and the objects. */
  function Payload(command: seq<Byte>, transaction: Double, vec: seq<seq<Prop>>): Option<seq<Byte>> {
    if WriteText(command).None? || WriteObjects(vec).None? then None
    else Some([0x02] + WriteText(command).value + ([0x00] + Reversed(transaction)) + WriteObjects(vec).value)
  }

  /** What get_payload_size adds up, from the lengths as they are; None for -1. */
  function ValSize(v: Val): Option<nat> {
    match v
    case Str(t) => Some(2 + |t|)
    case Num(_) => Some(8)
    case Len(_) => Some(4)
    case Flag(_) => None
  }

  function PropsSize(ps: seq<Prop>): Option<nat> {
    if ps == [] then Some(0) else
      var rest := PropsSize(ps[1..]);
      if ValSize(ps[0].val).None? || rest.None? then None
      else Some(3 + |ps[0].key| + ValSize(ps[0].val).value + rest.value)
  }

  function ObjectsSize(vec: seq<seq<Prop>>): Option<nat> {
    if vec == [] then Some(0) else
      var rest := ObjectsSize(vec[1..]);
      if PropsSize(vec[0]).None? || rest.None? then None else Some(4 + PropsSize(vec[0]).value + rest.value)
  }

  function PayloadSize(command: seq<Byte>, vec: seq<seq<Prop>>, bwDone: bool): Option<nat> {
    if bwDone then Some(13 + |command|)
    else if ObjectsSize(vec).None? then None
    else Some(12 + |command| + ObjectsSize(vec).value + if |vec| > 1 then 3 else 0)
  }

  method PropsLoop(ps: seq<Prop>, size0: nat) returns (size: int)
    ensures size == if PropsSize(ps).None? then -1 else size0 + PropsSize(ps).value
  {
    size := size0;
    var j := 0;
    assert ps[j..] == ps;
    while j < |ps|
      invariant j <= |ps| && (PropsSize(ps).None? <==> PropsSize(ps[j..]).None?)
      invariant size >= 0 && (PropsSize(ps).Some? ==> size + PropsSize(ps[j..]).value == size0 + PropsSize(ps).value)
    {
      assert ps[j..][1..] == ps[j + 1..];
      size := size + 2 + |ps[j].key| + 1;
      match ps[j].val {
        case Str(t) => size := size + 2 + |t|;
        case Num(_) => size := size + 8;
        case Len(_) => size := size + 4;
        case Flag(_) => return -1;
      }
      j := j + 1;
    }
  }

  /** get_payload_size */
  method GetPayloadSize(command: seq<Byte>, vec: seq<seq<Prop>>, bwDone: bool) returns (size: int)
    ensures size == if PayloadSize(command, vec, bwDone).None? then -1 else PayloadSize(command, vec, bwDone).value
  {
    size := 3 + |command| + 9;
    if bwDone { return size + 1; }
    ghost var size0 := size;
    var i := 0;
    assert vec[i..] == vec;
    while i < |vec|
      invariant i <= |vec| && (ObjectsSize(vec).None? <==> ObjectsSize(vec[i..]).None?)
      invariant size >= 0
      invariant (ObjectsSize(vec).Some? ==> size + ObjectsSize(vec[i..]).value == size0 + ObjectsSize(vec).value)
    {
      assert vec[i..][1..] == vec[i + 1..];
      size := size + 1;
      size := PropsLoop(vec[i], size);
      if size == -1 { return; }
      size := size + 3;
      i := i + 1;
    }
    if |vec| > 1 { size := size + 3; }
  }

  /** write_payload; -1 stands also for the exception that a negative length throws. */
  method WritePayload(buffer: ObjectBuffer, command: seq<Byte>, transaction: Double, vec: seq<seq<Prop>>)
    returns (rc: int)
    modifies buffer
    ensures rc == if Payload(command, transaction, vec).None? then -1 else 0
    ensures rc == 0 ==> buffer.data == old(buffer.data) + Payload(command, transaction, vec).value
  {
    rc := WriteCommand(buffer, command, transaction);
    if rc == -1 { return; }
    rc := buffer.WriteObject(vec);
    if rc == 0 {
      Regroup(old(buffer.data), [0x02] + WriteText(command).value + ([0x00] + Reversed(transaction)),
              WriteObjects(vec).value);
    }
  }

  method WriteCommand(buffer: ObjectBuffer, command: seq<Byte>, transaction: Double) returns (rc: int)
    modifies buffer
    ensures rc == if WriteText(command).None? then -1 else 0
    ensures rc == 0 ==>
      buffer.data == old(buffer.data) + ([0x02] + WriteText(command).value + ([0x00] + Reversed(transaction)))
  {
    buffer.data := buffer.data + [0x02];
    rc := buffer.PushText(command);
    if rc == -1 { return; }
    Regroup(old(buffer.data), [0x02], WriteText(command).value);
    buffer.PushMarked(0x00, Reversed(transaction));
    Regroup(old(buffer.data), [0x02] + WriteText(command).value, [0x00] + Reversed(transaction));
  }

  /**
   * The payload is a string, a number and the objects, or null, as sections 2.2 to 2.7 of the AMF0 specification have
   * them, if the command fits and the objects can be written; else there is none.
   */
  lemma PayloadIsStandard(command: seq<Byte>, transaction: Double, vec: seq<seq<Prop>>)
    requires |command| <= 0xFFFF && AllLegal(vec)
    ensures Payload(command, transaction, vec) ==
      if |command| <= 0x7FFF && forall ps :: ps in vec ==> AllWritable(ps) then
        Some([0x02] + Text(command) + ([0x00] + Reversed(transaction)) +
             if vec == [] then [0x05] else EachBytes(vec) + if |vec| == 1 then [] else [0x00, 0x00, 0x09])
      else None
  {
    TextIsStandard(command);
    ObjectsAreStandardIff(vec);
  }

  // ---------- When the announced length is right ----------

  /** The length fits its 16 bits as a positive int16_t. */
  predicate Short(t: seq<Byte>) {
    |t| <= 0x7FFF
  }

  predicate ShortProp(p: Prop) {
    Short(p.key) && (p.val.Str? ==> Short(p.val.text))
  }

  predicate ShortProps(ps: seq<Prop>) {
    forall p :: p in ps ==> ShortProp(p)
  }

  predicate AllShort(vec: seq<seq<Prop>>) {
    forall ps :: ps in vec ==> ShortProps(ps)
  }

  /** A text is written in full, or short by a multiple of 65536. */
  lemma TextSize(t: seq<Byte>)
    requires WriteText(t).Some?
    ensures var n := |WriteText(t).value|;
      n <= 2 + |t| && (n == 2 + |t| <==> Short(t)) && (!Short(t) ==> n + 0x1_0000 <= 2 + |t|)
  {
  }

  lemma PropSize(p: Prop)
    requires WriteProp(p).Some?
    ensures ValSize(p.val).Some?
    ensures var n, m := |WriteProp(p).value|, 3 + |p.key| + ValSize(p.val).value; n <= m && (n == m <==> ShortProp(p))
  {
    TextSize(p.key);
    if p.val.Str? { TextSize(p.val.text); }
  }

  lemma {:induction false} PropsAreSized(ps: seq<Prop>)
    requires WriteProps(ps).Some?
    ensures PropsSize(ps).Some?
    ensures var n, m := |WriteProps(ps).value|, PropsSize(ps).value; n <= m && (n == m <==> ShortProps(ps))
  {
    if ps != [] {
      FirstProp(ps);
      PropSize(ps[0]);
      PropsAreSized(ps[1..]);
      assert ps == [ps[0]] + ps[1..];
    }
  }

  lemma OneIsSized(ps: seq<Prop>)
    requires WriteOne(ps).Some?
    ensures PropsSize(ps).Some?
    ensures var n, m := |WriteOne(ps).value|, 4 + PropsSize(ps).value; n <= m && (n == m <==> ShortProps(ps))
  {
    PropsAreSized(ps);
  }

  lemma FirstObject(vec: seq<seq<Prop>>)
    requires vec != []
    ensures WriteEach(vec) ==
      if WriteOne(vec[0]).None? || WriteEach(vec[1..]).None? then None
      else Some(WriteOne(vec[0]).value + WriteEach(vec[1..]).value)
  {
    assert ObjectParts(vec)[1..] == ObjectParts(vec[1..]);
  }

  lemma {:induction false} ObjectsAreSized(vec: seq<seq<Prop>>)
    requires WriteEach(vec).Some?
    ensures ObjectsSize(vec).Some?
    ensures var n, m := |WriteEach(vec).value|, ObjectsSize(vec).value; n <= m && (n == m <==> AllShort(vec))
  {
    if vec != [] {
      FirstObject(vec);
      OneIsSized(vec[0]);
      ObjectsAreSized(vec[1..]);
      assert vec == [vec[0]] + vec[1..];
    }
  }

  /**
   * The announced length is that of the payload exactly if there is an object, or the message is onBWDone, and no
   * length was cut to 16 bits; without objects the null marker is not counted otherwise.
   */
  lemma SizeIsRightIff(command: seq<Byte>, transaction: Double, vec: seq<seq<Prop>>, bwDone: bool)
    requires Payload(command, transaction, vec).Some? && (bwDone ==> vec == [])
    ensures PayloadSize(command, vec, bwDone).Some?
    ensures PayloadSize(command, vec, bwDone).value == |Payload(command, transaction, vec).value| <==>
      (vec != [] || bwDone) && Short(command) && AllShort(vec)
  {
    TextSize(command);
    if vec != [] { ObjectsAreSized(vec); }
  }

  /** It happens: a command of one letter without objects announces 13 bytes and sends 14. */
  lemma NullIsNotCounted(transaction: Double)
    ensures Payload([0x61], transaction, []).Some? && |Payload([0x61], transaction, []).value| == 14
    ensures PayloadSize([0x61], [], false) == Some(13)
  {
  }
}
