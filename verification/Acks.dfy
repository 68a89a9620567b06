// The acknowledgement packets PUBACK, PUBREC, PUBREL and PUBCOMP (mqtt/packets/puback.go).
module Acks {
  import opened Bits
  import opened Primitives
  import opened Properties
  import opened Frames

  datatype AckKind = Puback | Pubrec | Pubrel | Pubcomp

  function TypeOf(kind: AckKind): byte {
    match kind case Puback => 4 case Pubrec => 5 case Pubrel => 6 case Pubcomp => 7
  }

  datatype AckData = AckData(packetIdentifier: uint16, reasonCode: byte, reasonString: Str, userProperties: StringMap)

  const UNSET := AckData(0, 0, [], map[])

  // ---------- What WriteTo emits ----------

  function AckProperties(a: AckData, order: seq<Str>): seq<Property> {
    Optional(|a.reasonString| > 0, ReasonString(a.reasonString)) + UserProperties(order, a.userProperties)
  }

  // The first byte WriteTo leaves in a header that held first: a wrapper overrides the type (and PUBREL the flags),
  // the base method supplies PUBACK only when no type is set.
  function AckFirst(kind: AckKind, first: byte): byte {
    match kind
    case Puback => if first / 16 == 0 then 0x40 + first % 16 else first
    case Pubrec => 0x50 + first % 16
    case Pubrel => 0x62
    case Pubcomp => 0x70 + first % 16
  }

  // The reason code is left out when it is 0 and there are no properties; the properties length never is.
  function AckFrame(kind: AckKind, first: byte, a: AckData, order: seq<Str>): Frame {
    var ps := AckProperties(a, order);
    Frame(AckFirst(kind, first),
          EncU16(a.packetIdentifier) + (if a.reasonCode != 0 || PropertiesLength(ps) != 0 then [a.reasonCode] else []),
          ps, [])
  }

  // ---------- What ReadFrom understands ----------

  function Apply(a: AckData, property: Property): AckData {
    match property
    case ReasonString(s) => a.(reasonString := s)
    case UserProperty(k, v) => a.(userProperties := a.userProperties[k := v])
    case _ => a
  }

  function ApplyAll(a: AckData, ps: seq<Property>): AckData {
    Fold(Apply, a, ps)
  }

  function ReadAck(a: AckData, remaining: uint32, s: Str): (r: Parsed<AckData>)
    ensures r.Got? ==> |r.rest| <= |s|
  {
    match ReadU16(s)
    case Failed(e) => Failed(e)
    case Got(id, s1) =>
      var a1 := a.(packetIdentifier := id);
      if 2 >= remaining then Got(a1, s1)
      else if s1 == [] then Failed(EndOfInput)
      else
        var a2 := a1.(reasonCode := s1[0]);
        if 3 >= remaining then Got(a2, s1[1..]) else ReadAckProperties(a2, 3, s1[1..])
  }

  function ReadAckProperties(a: AckData, n: nat, s: Str): (r: Parsed<AckData>)
    ensures r.Got? ==> |r.rest| <= |s|
  {
    match ReadVar(s)
    case Failed(e) => Failed(e)
    case Got(propertiesLen, s1) =>
      var count := |s| - |s1|;
      match ReadBlock(ACK_PROPERTIES, [], n + count, propertiesLen, count, s1)
      case Failed(e) => Failed(e)
      case Got(block, s2) => Got(ApplyAll(a, block.properties), s2)
  }

  // ---------- Round trip ----------

  ghost predicate Carriable(a: AckData, order: seq<Str>) {
    IterationOrder(order, a.userProperties) && InBounds(AckFrame(Puback, 0, a, order))
  }

  lemma ApplyAckProperties(r: AckData, a: AckData, order: seq<Str>)
    requires r.reasonString == [] && r.userProperties == map[] && IterationOrder(order, a.userProperties)
    ensures ApplyAll(r, AckProperties(a, order))
         == r.(reasonString := a.reasonString, userProperties := a.userProperties)
  {
    hide Fold;
    hide Restrict;
    var reason := Optional(|a.reasonString| > 0, ReasonString(a.reasonString));
    FoldSnoc(Apply, r, [], ReasonString(a.reasonString));
    var r1 := r.(reasonString := a.reasonString);
    assert ApplyAll(r, reason) == r1;
    RestrictAll(order, a.userProperties);
    FoldUserProperties(Apply, (d: AckData, u: StringMap) => d.(userProperties := u), r1, order, a.userProperties);
    FoldAppend(Apply, r, reason, UserProperties(order, a.userProperties));
  }

  lemma AckPropertiesKnown(a: AckData, order: seq<Str>)
    ensures forall x <- AckProperties(a, order) :: Identifier(x) in ACK_PROPERTIES
  {
  }

  // Acknowledgements (MQTT 5.0 sections 3.4 to 3.7): reading what WriteTo emits after the fixed header restores the
  // packet identifier, the reason code, the reason string and the user properties. When neither a reason code nor a
  // property is set the body is three bytes long, and the zero properties length is read back as reason code 0.
  lemma AckRoundTrip(kind: AckKind, first: byte, a: AckData, order: seq<Str>, rest: Str)
    requires Carriable(a, order)
    ensures var f := AckFrame(kind, first, a, order);
      ReadAck(UNSET, |Body(f)|, Body(f) + rest) == Got(a, rest)
  {
    hide EncVar;
    hide ReadVar;
    hide EncProperties;
    hide PropertiesLength;
    hide AckProperties;
    hide EncU16;
    hide ReadU16;
    hide ReadAckProperties;
    hide Fold;
    var f := AckFrame(kind, first, a, order);
    var ps, len := f.properties, PropertiesLength(f.properties);
    InBoundsFrame(f);
    EncVarLength(len);
    var block := EncVar(len) + EncProperties(ps) + rest;
    U16RoundTrip(a.packetIdentifier, f.head[2..] + block);
    assert f.head == EncU16(a.packetIdentifier) + f.head[2..];
    assert Body(f) + rest == EncU16(a.packetIdentifier) + (f.head[2..] + block);
    if a.reasonCode != 0 || len != 0 {
      assert f.head[2..] == [a.reasonCode];
      assert ([a.reasonCode] + block)[1..] == block;
      AckPropertiesRoundTrip(a, order, rest);
    } else {
      NoProperties(a, order);
      assert EncVar(0) == [0] by { OneByteVar(); }
      assert f.head[2..] == [];
      assert block == [0] + rest;
      assert ([] + block)[1..] == rest;
    }
  }

  lemma OneByteVar()
    ensures EncVar(0) == [0]
  {
  }

  lemma NoProperties(a: AckData, order: seq<Str>)
    requires Carriable(a, order) && PropertiesLength(AckProperties(a, order)) == 0
    ensures a.reasonString == [] && a.userProperties == map[] && EncProperties(AckProperties(a, order)) == []
  {
    hide EncProperties;
    hide PropertiesLength;
    InBoundsFrame(AckFrame(Puback, 0, a, order));
    EncPropertiesNonEmpty(AckProperties(a, order));
    assert multiset(order) == multiset(a.userProperties.Keys);
    RestrictAll(order, a.userProperties);
  }

  // Reading a property block behind identifier and reason code.
  lemma ReadsProperties(f: Frame, r: AckData, rest: Str)
    requires InBounds(f) && AllReadable(ACK_PROPERTIES, f.properties)
    ensures ReadAckProperties(r, 3, EncVar(PropertiesLength(f.properties)) + EncProperties(f.properties) + rest)
         == Got(ApplyAll(r, f.properties), rest)
  {
    hide EncVar;
    hide ReadVar;
    hide EncProperties;
    hide PropertiesLength;
    hide ReadBlock;
    hide Fold;
    hide AllReadable;
    var ps := f.properties;
    InBoundsFrame(f);
    var s1 := EncProperties(ps) + rest;
    VarRoundTrip(PropertiesLength(ps), s1);
    assert EncVar(PropertiesLength(ps)) + EncProperties(ps) + rest == EncVar(PropertiesLength(ps)) + s1;
    var count := |EncVar(PropertiesLength(ps))|;
    BlockRoundTrip(ACK_PROPERTIES, [], ps, 3 + count, count, rest);
    assert [] + ps == ps;
  }

  lemma AckPropertiesRoundTrip(a: AckData, order: seq<Str>, rest: Str)
    requires Carriable(a, order)
    ensures var ps := AckProperties(a, order);
      ReadAckProperties(UNSET.(packetIdentifier := a.packetIdentifier, reasonCode := a.reasonCode), 3,
                        EncVar(PropertiesLength(ps)) + EncProperties(ps) + rest) == Got(a, rest)
  {
    hide EncVar;
    hide EncProperties;
    hide PropertiesLength;
    hide AckProperties;
    hide ReadAckProperties;
    hide Fold;
    hide Identifier;
    hide WithinBounds;
    var r := UNSET.(packetIdentifier := a.packetIdentifier, reasonCode := a.reasonCode);
    AckPropertiesKnown(a, order);
    ReadsProperties(AckFrame(Puback, 0, a, order), r, rest);
    ApplyAckProperties(r, a, order);
  }

  // ---------- As a server may send them ----------

  // Sections 3.4.2.1 and 3.4.2.2.1 of MQTT 5.0: the properties length may be left out, and the reason code with it when
  // it is 0.
  lemma IdentifierOnly(hi: byte, lo: byte, rest: Str)
    ensures ReadAck(UNSET, 2, [hi, lo] + rest) == Got(AckData(hi * 256 + lo, 0, [], map[]), rest)
  {
    assert ([hi, lo] + rest)[2..] == rest;
  }

  lemma WithoutProperties(hi: byte, lo: byte, code: byte, rest: Str)
    ensures ReadAck(UNSET, 3, [hi, lo, code] + rest) == Got(AckData(hi * 256 + lo, code, [], map[]), rest)
  {
    assert ([hi, lo, code] + rest)[2..] == [code] + rest;
    assert ([code] + rest)[1..] == rest;
  }

  // Identifier, reason code and a property block.
  function FullFrame(kind: AckKind, id: uint16, code: byte, ps: seq<Property>): Frame {
    Frame(AckFirst(kind, 0), EncU16(id) + [code], ps, [])
  }

  // The full form, with any known properties in any order and number, and any reason code.
  lemma ServerAck(kind: AckKind, id: uint16, code: byte, ps: seq<Property>, rest: Str)
    requires InBounds(FullFrame(kind, id, code, ps)) && AllReadable(ACK_PROPERTIES, ps)
    ensures var f := FullFrame(kind, id, code, ps);
      ReadAck(UNSET, |Body(f)|, Body(f) + rest)
      == Got(ApplyAll(UNSET.(packetIdentifier := id, reasonCode := code), ps), rest)
  {
    hide EncVar;
    hide EncProperties;
    hide PropertiesLength;
    hide EncU16;
    hide ReadU16;
    hide ReadAckProperties;
    hide Fold;
    hide AllReadable;
    var f := FullFrame(kind, id, code, ps);
    InBoundsFrame(f);
    EncVarLength(PropertiesLength(ps));
    var block := EncVar(PropertiesLength(ps)) + EncProperties(ps) + rest;
    U16RoundTrip(id, [code] + block);
    assert Body(f) + rest == EncU16(id) + ([code] + block);
    assert ([code] + block)[1..] == block;
    ReadsProperties(f, UNSET.(packetIdentifier := id, reasonCode := code), rest);
  }

  lemma AnyKindInBounds(kind: AckKind, first: byte, a: AckData, order: seq<Str>)
    requires Carriable(a, order)
    ensures InBounds(AckFrame(kind, first, a, order))
  {
  }

  // The kind of a packet can be read off the first byte its own WriteTo leaves in a fresh header, and only PUBREL
  // carries flags.
  lemma AckFirstByte(kind: AckKind)
    ensures AckFirst(kind, 0) / 16 == TypeOf(kind)
    ensures AckFirst(kind, 0) % 16 == if kind.Pubrel? then 2 else 0
  {
  }

  // ---------- The packet object ----------

  // Puback, and by embedding Pubrec, Pubrel and Pubcomp.
  class Ack {
    const header: FixedHeader
    var packetIdentifier: uint16
    var reasonCode: byte
    var reasonString: Str
    var userProperties: StringMap

    constructor (h: Head)
      ensures fresh(header) && header.Value() == h && Value() == UNSET
    {
      header := new FixedHeader(h.first, h.remaining);
      packetIdentifier, reasonCode, reasonString, userProperties := 0, 0, [], map[];
    }

    function Value(): AckData
      reads this
    {
      AckData(packetIdentifier, reasonCode, reasonString, userProperties)
    }

    // The WriteTo methods of the four packet kinds: the wrappers set up the header and call the method of Puback.
    method WriteTo(kind: AckKind, w: Buffer) returns (ghost order: seq<Str>)
      modifies w, header
      ensures IterationOrder(order, userProperties)
      ensures var f := AckFrame(kind, old(header.first), Value(), order);
        w.data == old(w.data) + Wire(f) && header.Value() == Head(f.first, Remaining(f))
    {
      hide AckFrame;
      hide Wire;
      hide Remaining;
      hide IterationOrder;
      if kind != Puback {
        header.SetType(TypeOf(kind));
      }
      if kind == Pubrel {
        header.SetFlags(0x02);
      }
      order := WriteBase(w);
      SameFrame(kind, old(header.first), Value(), order);
    }

    // Puback.WriteTo
    method WriteBase(w: Buffer) returns (ghost order: seq<Str>)
      modifies w, header
      ensures IterationOrder(order, userProperties)
      ensures var f := AckFrame(Puback, old(header.first), Value(), order);
        w.data == old(w.data) + Wire(f) && header.Value() == Head(f.first, Remaining(f))
    {
      hide EncVar;
      hide EncU16;
      hide EncProperties;
      hide AckProperties;
      hide PropertiesLength;
      hide IterationOrder;
      hide Remaining;
      hide VarLength;
      hide Wire;
      var propertiesLen := ComputePropertiesLength();
      VarLengthBound(propertiesLen);
      var variableHeaderLen: uint32 := 2;
      if reasonCode != 0 || propertiesLen != 0 {
        variableHeaderLen := Add32(variableHeaderLen, 1);
      }
      variableHeaderLen := Add32(variableHeaderLen, Add32(VarLength(propertiesLen), propertiesLen));
      if header.GetType() == 0 {
        header.SetType(TypeOf(Puback));
      }
      header.remaining := variableHeaderLen;

      header.WriteTo(w);
      WriteU16(packetIdentifier, w);
      if reasonCode != 0 || propertiesLen != 0 {
        WriteByte(reasonCode, w);
      }
      WriteVar(propertiesLen, w);
      order := WriteProperties(w);
      ghost var f := AckFrame(Puback, old(header.first), Value(), order);
      AckRemaining(old(header.first), Value(), order);
      assert w.data == old(w.data) + [f.first] + EncVar(Remaining(f)) + f.head + EncVar(propertiesLen)
                       + EncProperties(f.properties) + f.tail;
      Grouped(old(w.data), f);
    }

    method ComputePropertiesLength() returns (propertiesLen: uint32)
      ensures forall order :: IterationOrder(order, userProperties) ==>
                propertiesLen == PropertiesLength(AckProperties(Value(), order))
    {
      hide PropertiesLength;
      hide TotalLength;
      hide EncProperties;
      hide StrLength;
      hide IterationOrder;
      hide UserProperties;
      propertiesLen := 0;
      if |reasonString| > 0 {
        propertiesLen := Add32(propertiesLen, StrLength(reasonString, true));
      }
      propertiesLen := AddUserProperties(userProperties, propertiesLen);
      forall order | IterationOrder(order, userProperties)
        ensures propertiesLen == PropertiesLength(AckProperties(Value(), order))
      {
        OptionalFirst(|reasonString| > 0, ReasonString(reasonString), UserProperties(order, userProperties));
      }
    }

    method WriteProperties(w: Buffer) returns (ghost order: seq<Str>)
      modifies w
      ensures IterationOrder(order, userProperties)
      ensures w.data == old(w.data) + EncProperties(AckProperties(Value(), order))
    {
      hide PropertiesLength;
      hide TotalLength;
      hide EncProperties;
      hide EncStr;
      hide IterationOrder;
      hide UserProperties;
      if |reasonString| > 0 {
        WriteStrAsProperty(0x1F, reasonString, w);
      }
      ghost var first := if |reasonString| > 0 then EncProperty(ReasonString(reasonString)) else [];
      assert w.data == old(w.data) + first;
      order := WriteUserProperties(userProperties, w);
      OptionalFirst(|reasonString| > 0, ReasonString(reasonString), UserProperties(order, userProperties));
    }

    // ReadFrom, the fixed header having been read.
    method ReadFrom(r: Stream) returns (status: Status)
      modifies this, r
      ensures match ReadAck(old(Value()), header.remaining, old(r.rest))
        case Got(a, rest) => status.Read? && Value() == a && r.rest == rest
        case Failed(e) => status == Status.Error(e)
    {
      hide ReadAckProperties;
      hide ReadU16;
      var id, idStatus := ReadUint16(r);
      if idStatus.Error? {
        return idStatus;
      }
      assert idStatus.n == 2 by { ReadU16Count(old(r.rest)); }
      packetIdentifier := id;
      var n := idStatus.n;
      if n >= header.remaining {
        return Read(n);
      }
      var code, codeStatus := ReadByte(r);
      if codeStatus.Error? {
        return codeStatus;
      }
      reasonCode, n := code, n + 1;
      if n >= header.remaining {
        return Read(n);
      }
      status := ReadProperties(r, n);
    }

    method ReadProperties(r: Stream, start: nat) returns (status: Status)
      modifies this, r
      ensures match ReadAckProperties(old(Value()), start, old(r.rest))
        case Got(a, rest) => status.Read? && Value() == a && r.rest == rest
        case Failed(e) => status == Status.Error(e)
    {
      hide ReadVar;
      hide ReadBody;
      var propertiesLen, lenStatus := ReadVarInt(r);
      if lenStatus.Error? {
        return lenStatus;
      }
      var n, remaining, count := start + lenStatus.n, propertiesLen, lenStatus.n;
      ghost var s1, done: seq<Property> := r.rest, [];
      while remaining > 0
        invariant count >= 0
        invariant Value() == ApplyAll(old(Value()), done)
        invariant ReadBlock(ACK_PROPERTIES, [], start + lenStatus.n, propertiesLen, lenStatus.n, s1)
               == ReadBlock(ACK_PROPERTIES, done, n, remaining, count, r.rest)
        decreases remaining
      {
        var identifier, idStatus := ReadByte(r);
        if idStatus.Error? {
          return idStatus;
        }
        n, remaining := n + 1, remaining - 1;
        if identifier in ACK_PROPERTIES {
          ghost var s := r.rest;
          var st := ReadProperty(identifier, r);
          if st.Error? {
            return st;
          }
          count := st.n;
          done := done + [ReadBody(identifier, s).value];
        }
        n, remaining := n + count, remaining - count;
      }
      status := Read(n);
    }

    // One turn of the property loop, after its identifier.
    method ReadProperty(identifier: byte, r: Stream) returns (status: Status)
      requires identifier in ACK_PROPERTIES
      modifies this, r
      ensures match ReadBody(identifier, old(r.rest))
        case Got(property, rest) =>
          Value() == Apply(old(Value()), property) && r.rest == rest && status == Read(|old(r.rest)| - |rest|)
        case Failed(e) => status == Status.Error(e)
    {
      hide ReadStr;
      if identifier == 0x1F {
        var v, st := ReadString(r);
        if st.Error? { return st; }
        reasonString, status := v, st;
      } else {
        var k, st := ReadString(r);
        if st.Error? { return st; }
        var v, st2 := ReadString(r);
        if st2.Error? { return st2; }
        userProperties, status := userProperties[k := v], Read(st.n + st2.n);
      }
    }
  }

  // The wrappers leave the same frame to the base method as AckFrame describes.
  lemma SameFrame(kind: AckKind, first: byte, a: AckData, order: seq<Str>)
    ensures match kind
      case Puback => true
      case Pubrec => AckFrame(Puback, 0x50 + first % 16, a, order) == AckFrame(kind, first, a, order)
      case Pubrel => AckFrame(Puback, 0x62, a, order) == AckFrame(kind, first, a, order)
      case Pubcomp => AckFrame(Puback, 0x70 + first % 16, a, order) == AckFrame(kind, first, a, order)
  {
  }

  lemma AckRemaining(first: byte, a: AckData, order: seq<Str>)
    ensures var propertiesLen := PropertiesLength(AckProperties(a, order));
      Remaining(AckFrame(Puback, first, a, order))
      == Add32(if a.reasonCode != 0 || propertiesLen != 0 then Add32(2, 1) else 2,
               Add32(VarLength(propertiesLen), propertiesLen))
  {
    hide PropertiesLength;
    hide AckProperties;
    hide VarLength;
    hide EncU16;
    VarLengthBound(PropertiesLength(AckProperties(a, order)));
  }
}
