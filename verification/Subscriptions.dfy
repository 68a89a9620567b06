// SUBSCRIBE and UNSUBSCRIBE as the client writes them and SUBACK as it reads it (mqtt/packets/subscribe.go,
// unsubscribe.go, suback.go).
module Subscriptions {
  import opened Bits
  import opened Primitives
  import opened Properties
  import opened Frames

  datatype Topic = Topic(filter: Str, options: byte)

  // ---------- SUBSCRIBE and UNSUBSCRIBE ----------

  // A topic filter in the payload: SUBSCRIBE adds the options byte.
  function EncTopic(t: Topic, withOptions: bool): Str {
    EncStr(t.filter) + if withOptions then [t.options] else []
  }

  function EncTopics(topics: seq<Topic>, withOptions: bool): Str {
    if topics == [] then []
    else EncTopics(topics[..|topics| - 1], withOptions) + EncTopic(topics[|topics| - 1], withOptions)
  }

  function SubscribeProperties(subscriptionIdentifier: uint32, userProperties: StringMap, order: seq<Str>)
    : seq<Property>
  {
    Optional(subscriptionIdentifier > 0, SubscriptionIdentifier(subscriptionIdentifier))
    + UserProperties(order, userProperties)
  }

  // Both packets have 2 in their flags.
  function SubscribeFrame(id: uint16, subscriptionIdentifier: uint32, userProperties: StringMap, topics: seq<Topic>,
                          order: seq<Str>): Frame {
    Frame(0x82, EncU16(id), SubscribeProperties(subscriptionIdentifier, userProperties, order), EncTopics(topics, true))
  }

  function UnsubscribeFrame(id: uint16, userProperties: StringMap, topics: seq<Topic>, order: seq<Str>): Frame {
    Frame(0xA2, EncU16(id), UserProperties(order, userProperties), EncTopics(topics, false))
  }

  // The payload length loop of both writers.
  method TopicsLength(topics: seq<Topic>, withOptions: bool) returns (payloadLen: uint32)
    ensures payloadLen == |EncTopics(topics, withOptions)| % TWO_TO_THE_32
  {
    payloadLen := 0;
    for i := 0 to |topics|
      invariant payloadLen == |EncTopics(topics[..i], withOptions)| % TWO_TO_THE_32
    {
      hide EncStr;
      hide EncTopics;
      var length := StrLength(topics[i].filter, false);
      EncTopicsSnoc(topics, i, withOptions);
      StrLengthExact(topics[i].filter);
      hide StrLength;
      Add32Sum(2 + |topics[i].filter|, 1);
      Add32Sum(|EncTopics(topics[..i], withOptions)|, |EncTopic(topics[i], withOptions)|);
      payloadLen := Add32(payloadLen, if withOptions then Add32(length, 1) else length);
    }
    assert topics[..|topics|] == topics;
  }

  lemma EncTopicsSnoc(topics: seq<Topic>, i: nat, withOptions: bool)
    requires i < |topics|
    ensures EncTopics(topics[..i + 1], withOptions)
         == EncTopics(topics[..i], withOptions) + EncTopic(topics[i], withOptions)
    ensures |EncTopic(topics[i], withOptions)| == 2 + |topics[i].filter| + if withOptions then 1 else 0
  {
    assert topics[..i + 1][..i] == topics[..i];
  }

  // The payload loop of both writers.
  method WriteTopics(topics: seq<Topic>, withOptions: bool, w: Buffer)
    modifies w
    ensures w.data == old(w.data) + EncTopics(topics, withOptions)
  {
    for i := 0 to |topics|
      invariant w.data == old(w.data) + EncTopics(topics[..i], withOptions)
    {
      hide EncStr;
      hide EncTopics;
      EncTopicsSnoc(topics, i, withOptions);
      WriteStr(topics[i].filter, w);
      if withOptions {
        WriteByte(topics[i].options, w);
      }
    }
    assert topics[..|topics|] == topics;
  }

  class Subscribe {
    var packetIdentifier: uint16
    var subscriptionIdentifier: uint32
    var userProperties: StringMap
    var topics: seq<Topic>

    constructor (packetIdentifier: uint16, topics: seq<Topic>)
      ensures this.packetIdentifier == packetIdentifier && this.topics == topics
      ensures subscriptionIdentifier == 0 && userProperties == map[]
    {
      this.packetIdentifier, this.topics := packetIdentifier, topics;
      subscriptionIdentifier, userProperties := 0, map[];
    }

    method WriteTo(w: Buffer) returns (status: Status, ghost order: seq<Str>)
      modifies w
      ensures topics == [] ==> status == Status.Error(MalformedPacket) && w.data == old(w.data)
      ensures topics != [] ==>
                && status.Read? && IterationOrder(order, userProperties)
                && w.data == old(w.data) + Wire(SubscribeFrame(packetIdentifier, subscriptionIdentifier, userProperties,
                                                               topics, order))
    {
      hide EncVar;
      hide EncU16;
      hide EncProperties;
      hide EncTopics;
      hide SubscribeProperties;
      hide PropertiesLength;
      hide IterationOrder;
      hide Wire;
      hide Remaining;
      if |topics| == 0 {
        return Status.Error(MalformedPacket), [];
      }
      var propertiesLen := ComputePropertiesLength();
      VarLengthBound(propertiesLen);
      var payloadLen := TopicsLength(topics, true);
      var fh := new FixedHeader(0, 0);
      fh.remaining := Add32(Add32(2, Add32(VarLength(propertiesLen), propertiesLen)), payloadLen);
      fh.SetType(SUBSCRIBE);
      fh.SetFlags(0x02);
      fh.WriteTo(w);
      WriteU16(packetIdentifier, w);
      WriteVar(propertiesLen, w);
      order := WriteProperties(w);
      WriteTopics(topics, true, w);
      status := Read(0);
      ghost var f := SubscribeFrame(packetIdentifier, subscriptionIdentifier, userProperties, topics, order);
      RemainingOfTwo(f);
      assert fh.first == f.first;
      Grouped(old(w.data), f);
    }

    method ComputePropertiesLength() returns (propertiesLen: uint32)
      ensures forall order :: IterationOrder(order, userProperties) ==>
                propertiesLen == PropertiesLength(SubscribeProperties(subscriptionIdentifier, userProperties, order))
    {
      hide PropertiesLength;
      hide TotalLength;
      hide EncProperties;
      hide VarLength;
      hide IterationOrder;
      hide UserProperties;
      propertiesLen := 0;
      if subscriptionIdentifier > 0 {
        var length := VarLength(subscriptionIdentifier);
        VarLengthBound(subscriptionIdentifier);
        propertiesLen := Add32(propertiesLen, if length == 0 then 0 else length + 1);
      }
      propertiesLen := AddUserProperties(userProperties, propertiesLen);
      forall order | IterationOrder(order, userProperties)
        ensures propertiesLen == PropertiesLength(SubscribeProperties(subscriptionIdentifier, userProperties, order))
      {
        OptionalFirst(subscriptionIdentifier > 0, SubscriptionIdentifier(subscriptionIdentifier),
                      UserProperties(order, userProperties));
      }
    }

    method WriteProperties(w: Buffer) returns (ghost order: seq<Str>)
      modifies w
      ensures IterationOrder(order, userProperties)
      ensures w.data == old(w.data) + EncProperties(SubscribeProperties(subscriptionIdentifier, userProperties, order))
    {
      hide PropertiesLength;
      hide TotalLength;
      hide EncProperties;
      hide EncVar;
      hide IterationOrder;
      hide UserProperties;
      ghost var id := SubscriptionIdentifier(subscriptionIdentifier);
      if subscriptionIdentifier > 0 {
        WriteVarAsProperty(0x0B, subscriptionIdentifier, w);
      }
      assert w.data == old(w.data) + if subscriptionIdentifier > 0 then EncProperty(id) else [];
      order := WriteUserProperties(userProperties, w);
      OptionalFirst(subscriptionIdentifier > 0, id, UserProperties(order, userProperties));
    }
  }

  lemma RemainingOfTwo(f: Frame)
    requires |f.head| == 2
    ensures var propertiesLen := PropertiesLength(f.properties);
      Remaining(f) == Add32(Add32(2, Add32(VarLength(propertiesLen), propertiesLen)), |f.tail| % TWO_TO_THE_32)
  {
    hide PropertiesLength;
    hide VarLength;
  }

  class Unsubscribe {
    var packetIdentifier: uint16
    var userProperties: StringMap
    var topics: seq<Topic>

    constructor (packetIdentifier: uint16, topics: seq<Topic>)
      ensures this.packetIdentifier == packetIdentifier && this.topics == topics && userProperties == map[]
    {
      this.packetIdentifier, this.topics, userProperties := packetIdentifier, topics, map[];
    }

    method WriteTo(w: Buffer) returns (status: Status, ghost order: seq<Str>)
      modifies w
      ensures topics == [] ==> status == Status.Error(MalformedPacket) && w.data == old(w.data)
      ensures topics != [] ==>
                && status.Read? && IterationOrder(order, userProperties)
                && w.data == old(w.data) + Wire(UnsubscribeFrame(packetIdentifier, userProperties, topics, order))
    {
      hide EncVar;
      hide EncU16;
      hide EncProperties;
      hide EncTopics;
      hide UserProperties;
      hide TotalLength;
      hide IterationOrder;
      hide Wire;
      hide Remaining;
      if |topics| == 0 {
        return Status.Error(MalformedPacket), [];
      }
      var propertiesLen := AddUserProperties(userProperties, 0);
      VarLengthBound(propertiesLen);
      var payloadLen := TopicsLength(topics, false);
      var fh := new FixedHeader(0, 0);
      fh.remaining := Add32(Add32(2, Add32(VarLength(propertiesLen), propertiesLen)), payloadLen);
      fh.SetType(UNSUBSCRIBE);
      fh.SetFlags(0x02);
      fh.WriteTo(w);
      WriteU16(packetIdentifier, w);
      WriteVar(propertiesLen, w);
      order := WriteUserProperties(userProperties, w);
      assert propertiesLen == PropertiesLength(UserProperties(order, userProperties));
      hide PropertiesLength;
      WriteTopics(topics, false, w);
      status := Read(0);
      ghost var f := UnsubscribeFrame(packetIdentifier, userProperties, topics, order);
      RemainingOfTwo(f);
      assert fh.first == f.first;
      Grouped(old(w.data), f);
    }
  }

  // ---------- SUBACK ----------

  datatype SubackData = SubackData(
    packetIdentifier: uint16,
    reasonString: Str,
    userProperties: StringMap,
    reasonCodes: Str)

  const UNSET := SubackData(0, [], map[], [])

  function Apply(a: SubackData, property: Property): SubackData {
    match property
    case ReasonString(s) => a.(reasonString := s)
    case UserProperty(k, v) => a.(userProperties := a.userProperties[k := v])
    case _ => a
  }

  function ApplyAll(a: SubackData, ps: seq<Property>): SubackData {
    Fold(Apply, a, ps)
  }

  // Suback.ReadFrom, the fixed header having been read.
  function ReadSuback(a: SubackData, remaining: uint32, s: Str): (r: Parsed<SubackData>)
    ensures r.Got? ==> |r.rest| <= |s|
  {
    match ReadU16(s)
    case Failed(e) => Failed(e)
    case Got(id, s1) =>
      var a1 := a.(packetIdentifier := id);
      if 2 >= remaining then Got(a1, s1)
      else
        match ReadVar(s1)
        case Failed(e) => Failed(e)
        case Got(propertiesLen, s2) =>
          var count := |s1| - |s2|;
          if 2 + count >= remaining then Got(a1, s2)
          else
            match ReadBlock(ACK_PROPERTIES, [], 2 + count, propertiesLen, count, s2)
            case Failed(e) => Failed(e)
            case Got(block, s3) => ReadReasonCodes(ApplyAll(a1, block.properties), remaining - block.n, s3)
  }

  // The bytes behind the properties are the reason codes; at least one is required.
  function ReadReasonCodes(a: SubackData, left: int, s: Str): Parsed<SubackData> {
    if left <= 0 then Failed(MalformedPacket)
    else if |s| < left then Failed(EndOfInput)
    else Got(a.(reasonCodes := s[..left]), s[left..])
  }

  // A SUBACK as a server sends it.
  function SubackFrame(id: uint16, ps: seq<Property>, reasonCodes: Str): Frame {
    Frame(0x90, EncU16(id), ps, reasonCodes)
  }

  // SUBACK (MQTT 5.0 section 3.9): on a packet whose property block is well formed with known identifiers and which
  // has at least one reason code, ReadFrom consumes exactly the Remaining bytes, and the reason codes are exactly the
  // bytes behind the properties.
  lemma SubackSplit(id: uint16, ps: seq<Property>, reasonCodes: Str, rest: Str)
    requires InBounds(SubackFrame(id, ps, reasonCodes)) && AllReadable(ACK_PROPERTIES, ps) && reasonCodes != []
    ensures var f := SubackFrame(id, ps, reasonCodes);
      ReadSuback(UNSET, |Body(f)|, Body(f) + rest)
      == Got(ApplyAll(UNSET.(packetIdentifier := id), ps).(reasonCodes := reasonCodes), rest)
  {
    hide EncVar;
    hide ReadVar;
    hide EncU16;
    hide ReadU16;
    hide EncProperties;
    hide PropertiesLength;
    hide ReadBlock;
    hide Fold;
    hide AllReadable;
    var f := SubackFrame(id, ps, reasonCodes);
    InBoundsFrame(f);
    var len := PropertiesLength(ps);
    var s2 := EncProperties(ps) + (reasonCodes + rest);
    assert Body(f) + rest == EncU16(id) + (EncVar(len) + s2);
    U16RoundTrip(id, EncVar(len) + s2);
    VarRoundTrip(len, s2);
    var count := |EncVar(len)|;
    BlockRoundTrip(ACK_PROPERTIES, [], ps, 2 + count, count, reasonCodes + rest);
    assert [] + ps == ps;
  }

  // With a reason string and user properties, in any order, these are restored.
  lemma SubackRoundTrip(a: SubackData, order: seq<Str>, rest: Str)
    requires IterationOrder(order, a.userProperties) && a.reasonCodes != []
    requires InBounds(SubackFrame(a.packetIdentifier, ReasonAndUser(a, order), a.reasonCodes))
    ensures var f := SubackFrame(a.packetIdentifier, ReasonAndUser(a, order), a.reasonCodes);
      ReadSuback(UNSET, |Body(f)|, Body(f) + rest) == Got(a, rest)
  {
    var ps := ReasonAndUser(a, order);
    ReasonAndUserKnown(a, order);
    SubackSplit(a.packetIdentifier, ps, a.reasonCodes, rest);
    hide ReadSuback;
    hide Body;
    hide Fold;
    hide Restrict;
    var r := UNSET.(packetIdentifier := a.packetIdentifier);
    var reason := Optional(|a.reasonString| > 0, ReasonString(a.reasonString));
    FoldSnoc(Apply, r, [], ReasonString(a.reasonString));
    var r1 := r.(reasonString := a.reasonString);
    assert ApplyAll(r, reason) == r1;
    RestrictAll(order, a.userProperties);
    FoldUserProperties(Apply, (d: SubackData, u: StringMap) => d.(userProperties := u), r1, order, a.userProperties);
    FoldAppend(Apply, r, reason, UserProperties(order, a.userProperties));
  }

  function ReasonAndUser(a: SubackData, order: seq<Str>): seq<Property> {
    Optional(|a.reasonString| > 0, ReasonString(a.reasonString)) + UserProperties(order, a.userProperties)
  }

  lemma ReasonAndUserKnown(a: SubackData, order: seq<Str>)
    requires InBounds(SubackFrame(a.packetIdentifier, ReasonAndUser(a, order), a.reasonCodes))
    ensures AllReadable(ACK_PROPERTIES, ReasonAndUser(a, order))
  {
    hide WithinBounds;
    forall p <- UserProperties(order, a.userProperties) ensures Identifier(p) == 0x26 {
    }
  }

  // A packet of nothing but the identifier is accepted, too, though section 3.9.3 of MQTT 5.0 wants a reason code.
  lemma SubackIdentifierOnly(hi: byte, lo: byte, rest: Str)
    ensures ReadSuback(UNSET, 2, [hi, lo] + rest) == Got(UNSET.(packetIdentifier := hi * 256 + lo), rest)
  {
    assert ([hi, lo] + rest)[2..] == rest;
  }

  // A packet that ends with its property block is refused, unless that block is empty: then it is accepted without any
  // reason code.
  lemma SubackWithoutCodes(id: uint16, ps: seq<Property>, rest: Str)
    requires InBounds(SubackFrame(id, ps, [])) && AllReadable(ACK_PROPERTIES, ps)
    ensures var f := SubackFrame(id, ps, []);
      ReadSuback(UNSET, |Body(f)|, Body(f) + rest)
      == if ps == [] then Got(UNSET.(packetIdentifier := id), rest) else Failed(MalformedPacket)
  {
    hide EncVar;
    hide ReadVar;
    hide EncU16;
    hide ReadU16;
    hide EncProperties;
    hide PropertiesLength;
    hide ReadBlock;
    hide Fold;
    hide AllReadable;
    var f := SubackFrame(id, ps, []);
    InBoundsFrame(f);
    EncPropertiesNonEmpty(ps);
    NoUserProperties(map[]);
    var len := PropertiesLength(ps);
    var s2 := EncProperties(ps) + rest;
    assert Body(f) + rest == EncU16(id) + (EncVar(len) + s2);
    U16RoundTrip(id, EncVar(len) + s2);
    VarRoundTrip(len, s2);
    if ps == [] {
      assert s2 == rest;
    } else {
      var count := |EncVar(len)|;
      BlockRoundTrip(ACK_PROPERTIES, [], ps, 2 + count, count, rest);
      assert [] + ps == ps;
    }
  }

  class Suback {
    const header: FixedHeader
    var packetIdentifier: uint16
    var reasonString: Str
    var userProperties: StringMap
    var reasonCodes: Str

    constructor (h: Head)
      ensures fresh(header) && header.Value() == h && Value() == UNSET
    {
      header := new FixedHeader(h.first, h.remaining);
      packetIdentifier, reasonString, userProperties, reasonCodes := 0, [], map[], [];
    }

    function Value(): SubackData
      reads this
    {
      SubackData(packetIdentifier, reasonString, userProperties, reasonCodes)
    }

    method ReadFrom(r: Stream) returns (status: Status)
      modifies this, r
      ensures match ReadSuback(old(Value()), header.remaining, old(r.rest))
        case Got(a, rest) => status.Read? && Value() == a && r.rest == rest
        case Failed(e) => status == Status.Error(e)
    {
      hide ReadU16;
      hide ReadVar;
      hide ReadBlock;
      hide Fold;
      var id, idStatus := ReadUint16(r);
      if idStatus.Error? {
        return idStatus;
      }
      assert idStatus.n == 2 by { ReadU16Count(old(r.rest)); }
      packetIdentifier := id;
      var n := idStatus.n;
      if n >= header.remaining {
        return Read(n);
      }
      var propertiesLen, lenStatus := ReadVarInt(r);
      if lenStatus.Error? {
        return lenStatus;
      }
      n := n + lenStatus.n;
      if n >= header.remaining {
        return Read(n);
      }
      var loopStatus := ReadProperties(r, n, propertiesLen, lenStatus.n);
      if loopStatus.Error? {
        return loopStatus;
      }
      n := loopStatus.n;
      if n >= header.remaining {
        return Status.Error(MalformedPacket);
      }
      var ok, codes := r.Read(header.remaining - n);
      if !ok {
        return Status.Error(EndOfInput);
      }
      reasonCodes := codes;
      status := Read(header.remaining);
    }

    // The property loop of ReadFrom; `remaining` shrinks on every turn, whatever the input.
    method ReadProperties(r: Stream, start: int, propertiesLen: int, lastCount: nat) returns (status: Status)
      modifies this, r
      ensures match ReadBlock(ACK_PROPERTIES, [], start, propertiesLen, lastCount, old(r.rest))
        case Got(block, rest) =>
          status == Read(block.n) && r.rest == rest && Value() == ApplyAll(old(Value()), block.properties)
        case Failed(e) => status == Status.Error(e)
    {
      hide ReadBody;
      ghost var done: seq<Property> := [];
      var n, remaining, count := start, propertiesLen, lastCount;
      while remaining > 0
        invariant count >= 0
        invariant Value() == ApplyAll(old(Value()), done)
        invariant ReadBlock(ACK_PROPERTIES, [], start, propertiesLen, lastCount, old(r.rest))
               == ReadBlock(ACK_PROPERTIES, done, n, remaining, count, r.rest)
        decreases remaining
      {
        var identifier, idStatus := ReadByte(r);
        if idStatus.Error? {
          return idStatus;
        }
        n, remaining := n + 1, remaining - 1;
        if identifier in ACK_PROPERTIES {
          ghost var s := r.rest;
          var st := ReadProperty(identifier, r);
          if st.Error? {
            return st;
          }
          count := st.n;
          done := done + [ReadBody(identifier, s).value];
        }
        n, remaining := n + count, remaining - count;
      }
      status := Read(n);
    }

    method ReadProperty(identifier: byte, r: Stream) returns (status: Status)
      requires identifier in ACK_PROPERTIES
      modifies this, r
      ensures match ReadBody(identifier, old(r.rest))
        case Got(property, rest) =>
          Value() == Apply(old(Value()), property) && r.rest == rest && status == Read(|old(r.rest)| - |rest|)
        case Failed(e) => status == Status.Error(e)
    {
      hide ReadStr;
      if identifier == 0x1F {
        var v, st := ReadString(r);
        if st.Error? { return st; }
        reasonString, status := v, st;
      } else {
        var k, st := ReadString(r);
        if st.Error? { return st; }
        var v, st2 := ReadString(r);
        if st2.Error? { return st2; }
        userProperties, status := userProperties[k := v], Read(st.n + st2.n);
      }
    }
  }
}
