// The PUBLISH packet (mqtt/packets/publish.go).
module Publish {
  import opened Bits
  import opened Primitives
  import opened Properties
  import opened Frames

  datatype PublishData = PublishData(
    retain: bool,
    qos: byte,
    duplicate: bool,
    topic: Str,
    packetIdentifier: uint16,
    payload: Str,
    messageExpiryInterval: uint32,
    topicAlias: uint16,
    responseTopic: Str,
    correlationData: Str,
    userProperties: StringMap,
    subscriptionIdentifier: uint32,
    contentType: Str)

  // A Publish none of whose fields has been set.
  const UNSET := PublishData(false, 0, false, [], 0, [], 0, 0, [], [], map[], 0, [])

  // ---------- What WriteTo emits ----------

  function FlagBits(p: PublishData): nat {
    BitOr(BitOr(if p.retain then 1 else 0, p.qos * 2 % 256), if p.duplicate then 8 else 0)
  }

  // The properties that are set, in the order WriteTo emits them; order is the iteration order of the map.
  function PropertyList(p: PublishData, order: seq<Str>): seq<Property> {
    Emitted(p, order, 7)
  }

  // The properties emitted by the first k of the seven steps of WriteTo.
  function Emitted(p: PublishData, order: seq<Str>, k: nat): seq<Property>
    requires k <= 7
  {
    if k == 0 then [] else Emitted(p, order, k - 1) + Step(p, order, k)
  }

  function Step(p: PublishData, order: seq<Str>, k: nat): seq<Property>
    requires 1 <= k <= 7
  {
    match k
    case 1 => Optional(p.messageExpiryInterval > 0, MessageExpiryInterval(p.messageExpiryInterval))
    case 2 => Optional(p.topicAlias > 0, TopicAlias(p.topicAlias))
    case 3 => Optional(|p.responseTopic| > 0, ResponseTopic(p.responseTopic))
    case 4 => Optional(|p.correlationData| > 0, CorrelationData(p.correlationData))
    case 5 => UserProperties(order, p.userProperties)
    case 6 => Optional(p.subscriptionIdentifier > 0, SubscriptionIdentifier(p.subscriptionIdentifier))
    case 7 => Optional(|p.contentType| > 0, ContentType(p.contentType))
  }

  function PublishHead(p: PublishData): Str {
    EncStr(p.topic) + if p.qos > 0 then EncU16(p.packetIdentifier) else []
  }

  // p with any list of properties, as a server may lay it out.
  function AnyFrame(p: PublishData, ps: seq<Property>): Frame {
    Frame(PUBLISH * 16 + FlagBits(p) % 16, PublishHead(p), ps, p.payload)
  }

  function PublishFrame(p: PublishData, order: seq<Str>): Frame {
    AnyFrame(p, PropertyList(p, order))
  }

  // ---------- What ReadFrom understands ----------

  function Apply(p: PublishData, property: Property): PublishData {
    match property
    case MessageExpiryInterval(v) => p.(messageExpiryInterval := v)
    case TopicAlias(v) => p.(topicAlias := v)
    case ResponseTopic(s) => p.(responseTopic := s)
    case CorrelationData(s) => p.(correlationData := s)
    case UserProperty(k, v) => p.(userProperties := p.userProperties[k := v])
    case SubscriptionIdentifier(v) => p.(subscriptionIdentifier := v)
    case ContentType(s) => p.(contentType := s)
    case ReasonString(_) => p
  }

  function ApplyAll(p: PublishData, ps: seq<Property>): PublishData {
    Fold(Apply, p, ps)
  }

  function WithFlags(p: PublishData, flags: byte): PublishData {
    p.(retain := flags % 2 != 0, qos := flags / 2 % 4, duplicate := flags / 8 % 2 != 0)
  }

  // ReadFrom on a receiver p. When the header has already been read (its type is not 0) n starts at 0 and offset is 0;
  // otherwise the header is read first, its length counts in n, and offset is 2.
  function ReadPublish(p: PublishData, h: Head, s: Str): (r: Parsed<PublishData>)
    ensures r.Got? ==> |r.rest| <= |s|
  {
    if h.first / 16 == 0 then
      match ReadHead(s)
      case Failed(e) => Failed(e)
      case Got(own, rest) => ReadVariableHeader(WithFlags(p, own.first % 16), own.remaining, |s| - |rest|, 2, rest)
    else ReadVariableHeader(WithFlags(p, h.first % 16), h.remaining, 0, 0, s)
  }

  function ReadVariableHeader(p: PublishData, remaining: uint32, n: nat, offset: int, s: Str): (r: Parsed<PublishData>)
    ensures r.Got? ==> |r.rest| <= |s|
  {
    match ReadStr(s)
    case Failed(e) => Failed(e)
    case Got(topic, s1) =>
      var p1 := p.(topic := topic);
      if p.qos > 0 then
        match ReadU16(s1)
        case Failed(e) => Failed(e)
        case Got(id, s2) => ReadPropertiesAndPayload(p1.(packetIdentifier := id), remaining, n + |s| - |s2|, offset, s2)
      else ReadPropertiesAndPayload(p1, remaining, n + |s| - |s1|, offset, s1)
  }

  function ReadPropertiesAndPayload(p: PublishData, remaining: uint32, n: int, offset: int, s: Str)
    : (r: Parsed<PublishData>)
    ensures r.Got? ==> |r.rest| <= |s|
  {
    match ReadVar(s)
    case Failed(e) => Failed(e)
    case Got(propertiesLen, s1) =>
      var count := |s| - |s1|;
      if n + count >= remaining then Got(p, s1)
      else
        match ReadBlock(PUBLISH_PROPERTIES, [], n + count, propertiesLen, count, s1)
        case Failed(e) => Failed(e)
        case Got(block, s2) => ReadPayload(ApplyAll(p, block.properties), remaining - block.n + offset, s2)
  }

  function ReadPayload(p: PublishData, payloadLen: int, s: Str): (r: Parsed<PublishData>)
    ensures r.Got? ==> |r.rest| <= |s|
  {
    if payloadLen <= 0 then Got(p, s)
    else if |s| < payloadLen then Failed(EndOfInput)
    else Got(p.(payload := s[..payloadLen]), s[payloadLen..])
  }

  // ---------- Round trip ----------

  // A PUBLISH the protocol can carry: a QoS of two bits, strings and lengths within their fields.
  ghost predicate Carriable(p: PublishData, order: seq<Str>) {
    && p.qos < 4
    && |p.topic| < 0x1_0000
    && IterationOrder(order, p.userProperties)
    && InBounds(PublishFrame(p, order))
  }

  // The packet identifier travels only with QoS > 0.
  function Received(p: PublishData): PublishData {
    if p.qos > 0 then p else p.(packetIdentifier := 0)
  }

  lemma FlagBitsSum(p: PublishData)
    requires p.qos < 4
    ensures FlagBits(p) == (if p.retain then 1 else 0) + 2 * p.qos + (if p.duplicate then 8 else 0)
  {
    hide BitOr;
    Powers();
    hide Pow2;
    var low, mid, high := if p.retain then 1 else 0, 2 * p.qos, if p.duplicate then 8 else 0;
    OrDisjoint(low, mid, p.qos, 1);
    OrDisjoint(low + mid, high, if p.duplicate then 1 else 0, 3);
  }

  lemma FlagsRoundTrip(p: PublishData, r: PublishData)
    requires p.qos < 4
    ensures FlagBits(p) < 16
    ensures WithFlags(r, FlagBits(p) % 16) == r.(retain := p.retain, qos := p.qos, duplicate := p.duplicate)
  {
    FlagBitsSum(p);
    hide FlagBits;
    var bits := FlagBits(p);
    assert bits / 2 == p.qos + if p.duplicate then 4 else 0;
    assert bits / 8 == if p.duplicate then 1 else 0;
  }

  // p with the properties of the first k steps taken over from another packet.
  function TakeOver(p: PublishData, from: PublishData, k: nat): PublishData {
    p.(messageExpiryInterval := if k >= 1 then from.messageExpiryInterval else p.messageExpiryInterval,
       topicAlias := if k >= 2 then from.topicAlias else p.topicAlias,
       responseTopic := if k >= 3 then from.responseTopic else p.responseTopic,
       correlationData := if k >= 4 then from.correlationData else p.correlationData,
       userProperties := if k >= 5 then from.userProperties else p.userProperties,
       subscriptionIdentifier := if k >= 6 then from.subscriptionIdentifier else p.subscriptionIdentifier,
       contentType := if k >= 7 then from.contentType else p.contentType)
  }

  function WithProperties(p: PublishData, from: PublishData): PublishData {
    TakeOver(p, from, 7)
  }

  lemma ApplyOptional(r: PublishData, present: bool, p: Property)
    ensures ApplyAll(r, Optional(present, p)) == if present then Apply(r, p) else r
  {
    hide Apply;
    FoldSnoc(Apply, r, [], p);
  }

  lemma ApplyStep(r: PublishData, p: PublishData, order: seq<Str>, k: nat)
    requires 1 <= k <= 7 && r == WithProperties(r, UNSET) && IterationOrder(order, p.userProperties)
    ensures ApplyAll(TakeOver(r, p, k - 1), Step(p, order, k)) == TakeOver(r, p, k)
  {
    hide Fold;
    hide Optional;
    hide IterationOrder;
    hide Restrict;
    var q := TakeOver(r, p, k - 1);
    match k
    case 1 => ApplyOptional(q, p.messageExpiryInterval > 0, MessageExpiryInterval(p.messageExpiryInterval));
    case 2 => ApplyOptional(q, p.topicAlias > 0, TopicAlias(p.topicAlias));
    case 3 => ApplyOptional(q, |p.responseTopic| > 0, ResponseTopic(p.responseTopic));
    case 4 => ApplyOptional(q, |p.correlationData| > 0, CorrelationData(p.correlationData));
    case 5 =>
      RestrictAll(order, p.userProperties);
      FoldUserProperties(Apply, (d: PublishData, u: StringMap) => d.(userProperties := u), q, order, p.userProperties);
    case 6 => ApplyOptional(q, p.subscriptionIdentifier > 0, SubscriptionIdentifier(p.subscriptionIdentifier));
    case 7 => ApplyOptional(q, |p.contentType| > 0, ContentType(p.contentType));
  }

  lemma {:induction false} ApplyEmitted(r: PublishData, p: PublishData, order: seq<Str>, k: nat)
    requires k <= 7 && r == WithProperties(r, UNSET) && IterationOrder(order, p.userProperties)
    ensures ApplyAll(r, Emitted(p, order, k)) == TakeOver(r, p, k)
  {
    if k > 0 {
      hide Step;
      hide Fold;
      hide IterationOrder;
      hide TakeOver;
      ApplyEmitted(r, p, order, k - 1);
      FoldAppend(Apply, r, Emitted(p, order, k - 1), Step(p, order, k));
      ApplyStep(r, p, order, k);
    }
  }

  lemma {:induction false} EmittedKnown(p: PublishData, order: seq<Str>, k: nat)
    requires k <= 7
    ensures forall x <- Emitted(p, order, k) :: Identifier(x) in PUBLISH_PROPERTIES
  {
    if k > 0 {
      EmittedKnown(p, order, k - 1);
      assert forall x <- Step(p, order, k) :: Identifier(x) in PUBLISH_PROPERTIES;
    }
  }

  // A receiver that has read flags, topic and packet identifier of p.
  function Opened(p: PublishData): PublishData {
    UNSET.(retain := p.retain, qos := p.qos, duplicate := p.duplicate, topic := p.topic,
           packetIdentifier := if p.qos > 0 then p.packetIdentifier else 0)
  }

  // A PUBLISH with any properties the reader knows, in any order and number.
  ghost predicate Sendable(p: PublishData, ps: seq<Property>) {
    p.qos < 4 && |p.topic| < 0x1_0000 && InBounds(AnyFrame(p, ps)) && AllReadable(PUBLISH_PROPERTIES, ps)
  }

  lemma CarriableSendable(p: PublishData, order: seq<Str>)
    requires Carriable(p, order)
    ensures Sendable(p, PropertyList(p, order))
  {
    hide Emitted;
    hide Identifier;
    hide WithinBounds;
    hide Body;
    EmittedKnown(p, order, 7);
  }

  // What ReadFrom makes of the rest of p's packet, n bytes into the packet by its own count.
  function RestRead(p: PublishData, ps: seq<Property>, n: nat, offset: int, rest: Str): Parsed<PublishData> {
    var f := AnyFrame(p, ps);
    var count, properties := |EncVar(PropertiesLength(ps))|, EncProperties(ps);
    if n + count >= |Body(f)| then Got(Opened(p), properties + p.payload + rest)
    else ReadPayload(ApplyAll(Opened(p), ps), |Body(f)| - (n + count + |properties|) + offset, p.payload + rest)
  }

  // Reading from the properties length on.
  lemma ReadsRest(p: PublishData, ps: seq<Property>, n: nat, offset: int, rest: Str)
    requires Sendable(p, ps)
    ensures ReadPropertiesAndPayload(Opened(p), |Body(AnyFrame(p, ps))|, n, offset,
                                     EncVar(PropertiesLength(ps)) + EncProperties(ps) + p.payload + rest)
      == RestRead(p, ps, n, offset, rest)
  {
    hide EncVar;
    hide ReadVar;
    hide EncProperties;
    hide PropertiesLength;
    hide AllReadable;
    hide PublishHead;
    hide ReadBlock;
    hide ReadPayload;
    hide Fold;
    hide FlagBits;
    var f, len := AnyFrame(p, ps), PropertiesLength(ps);
    InBoundsFrame(f);
    var s1 := EncProperties(ps) + (p.payload + rest);
    VarRoundTrip(len, s1);
    assert EncVar(len) + EncProperties(ps) + p.payload + rest == EncVar(len) + s1;
    var count := |EncVar(len)|;
    if n + count >= |Body(f)| {
      assert s1 == EncProperties(ps) + p.payload + rest;
    } else {
      BlockRoundTrip(PUBLISH_PROPERTIES, [], ps, n + count, count, p.payload + rest);
      assert [] + ps == ps;
    }
  }

  // Reading topic and packet identifier, whatever follows.
  lemma ReadsHead(p: PublishData, remaining: uint32, n: nat, offset: int, after: Str)
    requires |p.topic| < 0x1_0000
    ensures ReadVariableHeader(UNSET.(retain := p.retain, qos := p.qos, duplicate := p.duplicate), remaining, n, offset,
                               PublishHead(p) + after)
      == ReadPropertiesAndPayload(Opened(p), remaining, n + |PublishHead(p)|, offset, after)
  {
    hide ReadPropertiesAndPayload;
    hide EncStr;
    hide ReadStr;
    hide EncU16;
    hide ReadU16;
    if p.qos > 0 {
      assert PublishHead(p) + after == EncStr(p.topic) + (EncU16(p.packetIdentifier) + after);
      StrRoundTrip(p.topic, EncU16(p.packetIdentifier) + after);
      U16RoundTrip(p.packetIdentifier, after);
    } else {
      assert PublishHead(p) + after == EncStr(p.topic) + after;
      StrRoundTrip(p.topic, after);
    }
  }

  // Reading from the topic on.
  lemma ReadsVariableHeader(p: PublishData, ps: seq<Property>, n: nat, offset: int, rest: Str)
    requires Sendable(p, ps)
    ensures var f := AnyFrame(p, ps);
      ReadVariableHeader(UNSET.(retain := p.retain, qos := p.qos, duplicate := p.duplicate), |Body(f)|, n, offset,
                         Body(f) + rest)
      == RestRead(p, ps, n + |PublishHead(p)|, offset, rest)
  {
    hide ReadPropertiesAndPayload;
    hide ReadVariableHeader;
    hide EncVar;
    hide EncProperties;
    hide PropertiesLength;
    hide PublishHead;
    hide FlagBits;
    hide RestRead;
    var f := AnyFrame(p, ps);
    var after := EncVar(PropertiesLength(ps)) + EncProperties(ps) + p.payload + rest;
    assert Body(f) + rest == PublishHead(p) + after;
    ReadsHead(p, |Body(f)|, n, offset, after);
    ReadsRest(p, ps, n + |PublishHead(p)|, offset, rest);
  }

  lemma BodyLength(p: PublishData, ps: seq<Property>)
    ensures |Body(AnyFrame(p, ps))|
         == |PublishHead(p)| + |EncVar(PropertiesLength(ps))| + |EncProperties(ps)| + |p.payload|
  {
    hide EncVar;
    hide EncProperties;
    hide PropertiesLength;
    hide PublishHead;
    hide FlagBits;
  }

  // Nothing behind the properties length.
  lemma NothingBehind(p: PublishData, ps: seq<Property>, rest: Str)
    requires |EncProperties(ps)| + |p.payload| == 0
    ensures EncProperties(ps) + p.payload + rest == rest
    ensures ApplyAll(Opened(p), ps).(payload := p.payload) == Opened(p)
  {
    EncPropertiesNonEmpty(ps);
    assert EncProperties(ps) + p.payload + rest == rest;
  }

  lemma PayloadRead(q: PublishData, payload: Str, rest: Str)
    requires q.payload == []
    ensures ReadPayload(q, |payload|, payload + rest) == Got(q.(payload := payload), rest)
  {
    assert (payload + rest)[..|payload|] == payload && (payload + rest)[|payload|..] == rest;
  }

  lemma ReadsPayload(p: PublishData, ps: seq<Property>, rest: Str)
    requires Sendable(p, ps)
    ensures RestRead(p, ps, |PublishHead(p)|, 0, rest)
         == Got(ApplyAll(Opened(p), ps).(payload := p.payload), rest)
  {
    hide EncVar;
    hide EncProperties;
    hide PropertiesLength;
    hide PublishHead;
    hide FlagBits;
    hide Fold;
    hide Body;
    hide ReadPayload;
    hide Sendable;
    BodyLength(p, ps);
    PayloadUnset(Opened(p), ps);
    if |EncProperties(ps)| + |p.payload| == 0 {
      NothingBehind(p, ps, rest);
    } else {
      PayloadRead(ApplyAll(Opened(p), ps), p.payload, rest);
    }
  }

  // No property touches the payload.
  lemma {:induction false} PayloadUnset(p: PublishData, ps: seq<Property>)
    ensures ApplyAll(p, ps).payload == p.payload
  {
    if ps != [] {
      PayloadUnset(p, ps[..|ps| - 1]);
    }
  }

  // PUBLISH (MQTT 5.0 section 3.3) as any server may send it: with the fixed header read first, ReadFrom restores
  // flags, topic, identifier and payload, and takes over the properties, whatever their order and whatever follows
  // the packet.
  lemma ServerRoundTrip(p: PublishData, ps: seq<Property>, rest: Str)
    requires Sendable(p, ps)
    ensures var f := AnyFrame(p, ps);
      ReadPublish(UNSET, Head(f.first, |Body(f)|), Body(f) + rest)
      == Got(ApplyAll(Opened(p), ps).(payload := p.payload), rest)
  {
    hide FlagBits;
    hide WithFlags;
    hide ReadVariableHeader;
    hide Body;
    hide Fold;
    hide AllReadable;
    hide RestRead;
    FlagsRoundTrip(p, UNSET);
    ReadsVariableHeader(p, ps, 0, 0, rest);
    ReadsPayload(p, ps, rest);
  }

  // Every property the writer emits is taken over.
  lemma TakesAll(p: PublishData, order: seq<Str>)
    requires Carriable(p, order)
    ensures ApplyAll(Opened(p), PropertyList(p, order)) == WithProperties(Opened(p), p)
  {
    ApplyEmitted(Opened(p), p, order, 7);
  }

  // PUBLISH (MQTT 5.0 section 3.3): reading what WriteTo emits, with the fixed header read first, restores every
  // field, whatever the iteration order of the user properties and whatever follows the packet.
  lemma PublishRoundTrip(p: PublishData, order: seq<Str>, rest: Str)
    requires Carriable(p, order)
    ensures var f := PublishFrame(p, order);
      ReadPublish(UNSET, Head(f.first, |Body(f)|), Body(f) + rest) == Got(Received(p), rest)
  {
    hide FlagBits;
    hide Emitted;
    hide Fold;
    hide Body;
    hide ReadPublish;
    hide InBounds;
    hide AllReadable;
    CarriableSendable(p, order);
    ServerRoundTrip(p, PropertyList(p, order), rest);
    TakesAll(p, order);
  }

  lemma ReadsOwnHeader(p: PublishData, h: Head, order: seq<Str>, rest: Str)
    requires Carriable(p, order) && h.first / 16 == 0
    ensures var f := PublishFrame(p, order);
      ReadPublish(UNSET, h, Wire(f) + rest)
      == RestRead(p, f.properties, |Wire(f)| - |Body(f)| + |f.head|, 2, rest)
  {
    hide FlagBits;
    hide WithFlags;
    hide ReadVariableHeader;
    hide Body;
    hide Carriable;
    hide RestRead;
    hide ReadHead;
    hide Emitted;
    hide AllReadable;
    var f := PublishFrame(p, order);
    CarriableSendable(p, order);
    FlagsRoundTrip(p, UNSET);
    HeadRoundTrip(f, rest);
    ReadsVariableHeader(p, f.properties, |Wire(f)| - |Body(f)|, 2, rest);
  }

  // Reading that starts with the packet's own header counts the header but adds back only two bytes, and stops early
  // when the count reaches Remaining. So the packet is restored exactly if it has neither properties nor payload, or
  // these together are longer than the header and either the header takes two bytes or there is no payload.
  lemma OwnHeaderRoundTrip(p: PublishData, h: Head, order: seq<Str>, rest: Str)
    requires Carriable(p, order) && h.first / 16 == 0
    ensures var f := PublishFrame(p, order);
      var headLen, bytes := |Wire(f)| - |Body(f)|, |EncProperties(f.properties)| + |p.payload|;
      ReadPublish(UNSET, h, Wire(f) + rest) == Got(Received(p), rest)
      <==> bytes == 0 || (bytes > headLen && (headLen == 2 || p.payload == []))
  {
    hide EncVar;
    hide EncProperties;
    hide PropertiesLength;
    hide PropertyList;
    hide PublishHead;
    hide FlagBits;
    hide ReadPublish;
    var f := PublishFrame(p, order);
    ReadsOwnHeader(p, h, order, rest);
    TakesAll(p, order);
    InBoundsFrame(f);
    assert (p.payload + rest)[..|p.payload|] == p.payload && (p.payload + rest)[|p.payload|..] == rest;
    if |EncProperties(f.properties)| + |p.payload| == 0 {
      EncPropertiesNonEmpty(f.properties);
      assert ApplyAll(Opened(p), []) == Opened(p);
      assert EncProperties(f.properties) + p.payload + rest == rest;
    }
  }

  // A payload of one byte behind a topic is lost that way.
  lemma OwnHeaderLosesPayload(h: Head)
    requires h.first / 16 == 0
    ensures var p := UNSET.(topic := [0x61], payload := [0x62]);
      Carriable(p, []) && ReadPublish(UNSET, h, Wire(PublishFrame(p, []))) != Got(p, [])
  {
    var p := UNSET.(topic := [0x61], payload := [0x62]);
    PlainCarriable(p);
    var f := PublishFrame(p, []);
    hide PublishFrame;
    assert Wire(f) + [] == Wire(f);
    OwnHeaderRoundTrip(p, h, [], []);
    assert |Wire(f)| - |Body(f)| >= 2;
    assert |EncProperties(f.properties)| == 0;
  }

  lemma PlainCarriable(p: PublishData)
    requires p == UNSET.(topic := [0x61], payload := [0x62])
    ensures Carriable(p, []) && EncProperties(PublishFrame(p, []).properties) == []
  {
    var f := PublishFrame(p, []);
    NoUserProperties(map[]);
    assert PropertyList(p, []) == [] by { PlainProperties(p, 7); }
    assert f.properties == [];
    assert EncVar(PropertiesLength(f.properties)) == [0];
  }

  lemma {:induction false} PlainProperties(p: PublishData, k: nat)
    requires k <= 7 && p == UNSET.(topic := [0x61], payload := [0x62])
    ensures Emitted(p, [], k) == []
  {
    if k > 0 {
      PlainProperties(p, k - 1);
      NoUserProperties(map[]);
    }
  }

  // ---------- The packet object ----------

  class Publish {
    const header: FixedHeader
    var retain: bool
    var qos: byte
    var duplicate: bool
    var topic: Str
    var packetIdentifier: uint16
    var payload: Str
    var messageExpiryInterval: uint32
    var topicAlias: uint16
    var responseTopic: Str
    var correlationData: Str
    var userProperties: StringMap
    var subscriptionIdentifier: uint32
    var contentType: Str

    // &packets.Publish{Header: header}: the header is copied, every other field is unset.
    constructor (h: Head)
      ensures fresh(header) && header.Value() == h && Value() == UNSET
    {
      header := new FixedHeader(h.first, h.remaining);
      retain, qos, duplicate := false, 0, false;
      topic, packetIdentifier, payload := [], 0, [];
      messageExpiryInterval, topicAlias := 0, 0;
      responseTopic, correlationData, contentType := [], [], [];
      userProperties, subscriptionIdentifier := map[], 0;
    }

    function Value(): PublishData
      reads this
    {
      PublishData(retain, qos, duplicate, topic, packetIdentifier, payload, messageExpiryInterval, topicAlias,
                  responseTopic, correlationData, userProperties, subscriptionIdentifier, contentType)
    }

    // The part of WriteTo that adds up the property lengths.
    method ComputePropertiesLength() returns (propertiesLen: uint32)
      ensures forall order :: IterationOrder(order, userProperties) ==>
                propertiesLen == PropertiesLength(PropertyList(Value(), order))
    {
      hide PropertiesLength;
      hide IterationOrder;
      hide UserProperties;
      hide StrLength;
      hide VarLength;
      hide Emitted;
      ghost var none: seq<Str> := [];
      ghost var p := Value();
      propertiesLen := 0;
      LengthSteps(p, none);
      if messageExpiryInterval > 0 {
        propertiesLen := Add32(propertiesLen, 5);
      }
      if topicAlias > 0 {
        propertiesLen := Add32(propertiesLen, 3);
      }
      if |responseTopic| > 0 {
        propertiesLen := Add32(propertiesLen, StrLength(responseTopic, true));
      }
      if |correlationData| > 0 {
        propertiesLen := Add32(propertiesLen, StrLength(correlationData, true));
      }
      assert propertiesLen == Len(p, none, 4);
      propertiesLen := AddUserProperties(userProperties, propertiesLen);
      ghost var before := propertiesLen;
      if subscriptionIdentifier > 0 {
        var length := VarLength(subscriptionIdentifier);
        propertiesLen := Add32(propertiesLen, if length == 0 then 0 else length + 1);
      }
      if |contentType| > 0 {
        propertiesLen := Add32(propertiesLen, StrLength(contentType, true));
      }
      forall order | IterationOrder(order, userProperties)
        ensures propertiesLen == PropertiesLength(PropertyList(p, order))
      {
        EmittedBeforeUser(p, none, order, 4);
        LengthSteps(p, order);
        assert before == Len(p, order, 5);
      }
    }

    // The part of WriteTo that emits the properties.
    method WriteProperties(w: Buffer) returns (ghost order: seq<Str>)
      modifies w
      ensures IterationOrder(order, userProperties)
      ensures w.data == old(w.data) + EncProperties(PropertyList(Value(), order))
    {
      hide EncProperties;
      hide IterationOrder;
      hide UserProperties;
      hide Enc;
      ghost var p, start := Value(), w.data;
      WriteFirstProperties(w);
      order := WriteUserProperties(userProperties, w);
      EncUser(p, order);
      EncBeforeUser(p, [], order);
      assert w.data == start + Enc(p, order, 5);
      WriteLastProperties(w, start, order);
      EncWhole(p, order);
    }

    // Its four properties before the user properties ...
    method WriteFirstProperties(w: Buffer)
      modifies w
      ensures w.data == old(w.data) + Enc(Value(), [], 4)
    {
      hide EncStr;
      hide Enc;
      ghost var p, start := Value(), w.data;
      WriteNumbers(w);
      EncStrings(p, []);
      if |responseTopic| > 0 {
        WriteStrAsProperty(0x08, responseTopic, w);
      }
      assert w.data == start + Enc(p, [], 3);
      if |correlationData| > 0 {
        WriteStrAsProperty(0x09, correlationData, w);
      }
    }

    method WriteNumbers(w: Buffer)
      modifies w
      ensures w.data == old(w.data) + Enc(Value(), [], 2)
    {
      hide EncU32;
      hide EncU16;
      hide Enc;
      ghost var p, start := Value(), w.data;
      EncNumbers(p, []);
      if messageExpiryInterval > 0 {
        WriteU32AsProperty(0x02, messageExpiryInterval, w);
      }
      assert w.data == start + Enc(p, [], 1);
      if topicAlias > 0 {
        WriteU16AsProperty(0x23, topicAlias, w);
      }
    }

    // ... and the two after them.
    method WriteLastProperties(w: Buffer, ghost start: Str, ghost order: seq<Str>)
      requires w.data == start + Enc(Value(), order, 5)
      modifies w
      ensures w.data == start + Enc(Value(), order, 7)
    {
      hide EncStr;
      hide EncVar;
      hide Enc;
      ghost var p := Value();
      EncLast(p, order);
      if subscriptionIdentifier > 0 {
        WriteVarAsProperty(0x0B, subscriptionIdentifier, w);
      }
      assert w.data == start + Enc(p, order, 6);
      if |contentType| > 0 {
        WriteStrAsProperty(0x03, contentType, w);
      }
    }

    method WriteTo(w: Buffer) returns (status: Status, ghost order: seq<Str>)
      modifies w, header
      ensures topic == [] && topicAlias == 0 ==>
                && status == Status.Error(MalformedPacket) && w.data == old(w.data)
                && header.Value() == old(header.Value())
      ensures !(topic == [] && topicAlias == 0) ==>
                && status.Read? && IterationOrder(order, userProperties)
                && (var f := PublishFrame(Value(), order);
                    w.data == old(w.data) + Wire(f) && header.Value() == Head(f.first, Remaining(f)))
    {
      hide EncProperties;
      hide EncVar;
      hide EncStr;
      hide EncU16;
      hide PropertyList;
      hide PropertiesLength;
      hide IterationOrder;
      hide FlagBits;
      hide Remaining;
      hide PublishHead;
      if |topic| == 0 && topicAlias == 0 {
        return Status.Error(MalformedPacket), [];
      }
      var propertiesLen := PrepareHeader();
      header.WriteTo(w);
      WriteHead(w);
      WriteVar(propertiesLen, w);
      order := WriteProperties(w);
      if |payload| > 0 {
        w.Write(payload);
      }
      status := Read(0);
      ghost var f := PublishFrame(Value(), order);
      assert w.data == old(w.data) + [f.first] + EncVar(Remaining(f)) + f.head + EncVar(propertiesLen)
                       + EncProperties(f.properties) + f.tail;
      Grouped(old(w.data), f);
    }

    // The part of WriteTo that emits the topic and the packet identifier.
    method WriteHead(w: Buffer)
      modifies w
      ensures w.data == old(w.data) + PublishHead(Value())
    {
      hide EncStr;
      WriteStr(topic, w);
      if qos > 0 {
        WriteU16(packetIdentifier, w);
      }
    }

    // The part of WriteTo that computes the lengths and sets up the header.
    method PrepareHeader() returns (propertiesLen: uint32)
      modifies header
      ensures forall order :: IterationOrder(order, userProperties) ==>
                var f := PublishFrame(Value(), order);
                propertiesLen == PropertiesLength(f.properties) && header.Value() == Head(f.first, Remaining(f))
    {
      hide EncProperties;
      hide EncStr;
      hide EncU16;
      hide PropertyList;
      hide PropertiesLength;
      hide IterationOrder;
      hide BitOr;
      var variableHeaderLen: uint32 := StrLength(topic, false);
      if qos > 0 {
        variableHeaderLen := Add32(variableHeaderLen, 2);
      }
      HeadLength(Value());
      propertiesLen := ComputePropertiesLength();
      variableHeaderLen := Add32(variableHeaderLen, Add32(VarLength(propertiesLen), propertiesLen));

      var flags: nat := if retain then 1 else 0;
      flags := BitOr(flags, qos * 2 % 256);
      if duplicate {
        flags := BitOr(flags, 8);
      }
      FlagByte(Value());
      assert flags == FlagBits(Value());
      header.SetType(PUBLISH);
      header.SetFlags(flags);
      header.remaining := Add32(variableHeaderLen, |payload| % TWO_TO_THE_32);
    }

    // One turn of the property loop of ReadFrom, after its identifier: a known property is read into its field.
    method ReadProperty(identifier: byte, r: Stream) returns (status: Status)
      requires identifier in PUBLISH_PROPERTIES
      modifies this, r
      ensures match ReadBody(identifier, old(r.rest))
        case Got(property, rest) =>
          Value() == Apply(old(Value()), property) && r.rest == rest && status == Read(|old(r.rest)| - |rest|)
        case Failed(e) => status == Status.Error(e)
    {
      hide ReadU32;
      hide ReadU16;
      hide ReadStr;
      hide ReadVar;
      if identifier == 0x02 {
        var v, st := ReadUint32(r);
        if st.Error? { return st; }
        messageExpiryInterval, status := v, st;
      } else if identifier == 0x23 {
        var v, st := ReadUint16(r);
        if st.Error? { return st; }
        topicAlias, status := v, st;
      } else if identifier == 0x08 {
        var v, st := ReadString(r);
        if st.Error? { return st; }
        responseTopic, status := v, st;
      } else if identifier == 0x09 {
        var v, st := ReadString(r);
        if st.Error? { return st; }
        correlationData, status := v, st;
      } else if identifier == 0x26 {
        var k, st := ReadString(r);
        if st.Error? { return st; }
        var v, st2 := ReadString(r);
        if st2.Error? { return st2; }
        userProperties, status := userProperties[k := v], Read(st.n + st2.n);
      } else if identifier == 0x0B {
        var v, st := ReadVarInt(r);
        if st.Error? { return st; }
        subscriptionIdentifier, status := v, st;
      } else {
        var v, st := ReadString(r);
        if st.Error? { return st; }
        contentType, status := v, st;
      }
    }

    // ReadFrom. The receiver is as its fields say; a header of type 0 has not been read yet.
    method ReadFrom(r: Stream) returns (status: Status)
      modifies this, header, r
      ensures match ReadPublish(old(Value()), old(header.Value()), old(r.rest))
        case Got(p, rest) => status.Read? && Value() == p && r.rest == rest
        case Failed(e) => status == Status.Error(e)
    {
      hide ReadHead;
      hide ReadVariableHeader;
      var n, offset := 0, 0;
      if header.GetType() == 0 {
        var st := header.ReadFrom(r);
        if st.Error? {
          return st;
        }
        n, offset := st.n, 2;
      }
      var flags := header.GetFlags();
      retain := flags % 2 != 0;
      qos := flags / 2 % 4;
      duplicate := flags / 8 % 2 != 0;
      status := ReadAfterFlags(r, n, offset);
    }

    // The rest of ReadFrom: variable header, properties and payload, n bytes into the packet.
    method ReadAfterFlags(r: Stream, start: nat, offset: int) returns (status: Status)
      modifies this, r
      ensures match ReadVariableHeader(old(Value()), header.remaining, start, offset, old(r.rest))
        case Got(p, rest) => status.Read? && Value() == p && r.rest == rest
        case Failed(e) => status == Status.Error(e)
    {
      hide ReadStr;
      hide ReadU16;
      hide ReadPropertiesAndPayload;
      var n := start;
      var t, topicStatus := ReadString(r);
      if topicStatus.Error? {
        return topicStatus;
      }
      topic, n := t, n + topicStatus.n;
      if qos > 0 {
        var id, idStatus := ReadUint16(r);
        if idStatus.Error? {
          return idStatus;
        }
        packetIdentifier, n := id, n + idStatus.n;
      }
      status := ReadAfterIdentifier(r, n, offset);
    }

    method ReadAfterIdentifier(r: Stream, start: nat, offset: int) returns (status: Status)
      modifies this, r
      ensures match ReadPropertiesAndPayload(old(Value()), header.remaining, start, offset, old(r.rest))
        case Got(p, rest) => status.Read? && Value() == p && r.rest == rest
        case Failed(e) => status == Status.Error(e)
    {
      hide ReadVar;
      hide ReadBlock;
      hide Fold;
      var n := start;
      var propertiesLen, lenStatus := ReadVarInt(r);
      if lenStatus.Error? {
        return lenStatus;
      }
      n := n + lenStatus.n;
      if n >= header.remaining {
        return Read(n);
      }
      ghost var p := Value();
      var loopStatus, done := ReadPropertyLoop(r, n, propertiesLen, lenStatus.n);
      if loopStatus.Error? {
        return loopStatus;
      }
      var payloadLen := header.remaining - loopStatus.n + offset;
      if payloadLen > 0 {
        var ok, bytes := r.Read(payloadLen);
        if !ok {
          return Status.Error(EndOfInput);
        }
        payload := bytes;
      }
      return Read(0);
    }

    // The property loop of ReadFrom; done are the properties it has read.
    method ReadPropertyLoop(r: Stream, start: int, propertiesLen: int, lastCount: nat)
      returns (status: Status, ghost done: seq<Property>)
      modifies this, r
      ensures match ReadBlock(PUBLISH_PROPERTIES, [], start, propertiesLen, lastCount, old(r.rest))
        case Got(block, rest) =>
          && status == Read(block.n) && done == block.properties && r.rest == rest
          && Value() == ApplyAll(old(Value()), done)
        case Failed(e) => status == Status.Error(e)
    {
      hide ReadBody;
      hide Apply;
      hide Fold;
      done := [];
      FoldSnoc(Apply, Value(), [], TopicAlias(0));
      var n, remaining, count := start, propertiesLen, lastCount;
      while remaining > 0
        invariant count >= 0
        invariant Value() == ApplyAll(old(Value()), done)
        invariant ReadBlock(PUBLISH_PROPERTIES, [], start, propertiesLen, lastCount, old(r.rest))
               == ReadBlock(PUBLISH_PROPERTIES, done, n, remaining, count, r.rest)
        decreases remaining
      {
        var identifier, idStatus := ReadByte(r);
        if idStatus.Error? {
          return idStatus, done;
        }
        n, remaining := n + 1, remaining - 1;
        if identifier in PUBLISH_PROPERTIES {
          ghost var s := r.rest;
          var st := ReadProperty(identifier, r);
          if st.Error? {
            return st, done;
          }
          count := st.n;
          FoldSnoc(Apply, old(Value()), done, ReadBody(identifier, s).value);
          done := done + [ReadBody(identifier, s).value];
        }
        n, remaining := n + count, remaining - count;
      }
      status := Read(n);
    }
  }

  lemma {:induction false} EmittedBeforeUser(p: PublishData, order: seq<Str>, order': seq<Str>, k: nat)
    requires k <= 4
    ensures Emitted(p, order, k) == Emitted(p, order', k)
  {
    if k > 0 {
      EmittedBeforeUser(p, order, order', k - 1);
    }
  }

  function Len(p: PublishData, order: seq<Str>, k: nat): uint32
    requires k <= 7
  {
    PropertiesLength(Emitted(p, order, k))
  }

  function Enc(p: PublishData, order: seq<Str>, k: nat): Str
    requires k <= 7
  {
    EncProperties(Emitted(p, order, k))
  }

  // What each step of the length computation adds.
  lemma LengthSteps(p: PublishData, order: seq<Str>)
    ensures Len(p, order, 0) == 0
    ensures
      && Len(p, order, 1) == (if p.messageExpiryInterval > 0 then Add32(Len(p, order, 0), 5) else Len(p, order, 0))
      && Len(p, order, 2) == (if p.topicAlias > 0 then Add32(Len(p, order, 1), 3) else Len(p, order, 1))
      && Len(p, order, 3) == (if |p.responseTopic| > 0
                              then Add32(Len(p, order, 2), StrLength(p.responseTopic, true)) else Len(p, order, 2))
      && Len(p, order, 4) == (if |p.correlationData| > 0
                              then Add32(Len(p, order, 3), StrLength(p.correlationData, true)) else Len(p, order, 3))
      && Len(p, order, 5) == Wrap32(Len(p, order, 4) + TotalLength(UserProperties(order, p.userProperties)))
      && Len(p, order, 6) == (if p.subscriptionIdentifier > 0
                              then Add32(Len(p, order, 5),
                                         PropertyLength(SubscriptionIdentifier(p.subscriptionIdentifier)))
                              else Len(p, order, 5))
      && Len(p, order, 7) == (if |p.contentType| > 0
                              then Add32(Len(p, order, 6), StrLength(p.contentType, true)) else Len(p, order, 6))
  {
    hide PropertiesLength;
    hide EncProperties;
    hide EncProperty;
    hide UserProperties;
    hide StrLength;
    hide VarLength;
    hide Optional;
    NoUserProperties(map[]);
    OptionalAppended(Emitted(p, order, 0), p.messageExpiryInterval > 0, MessageExpiryInterval(p.messageExpiryInterval));
    OptionalAppended(Emitted(p, order, 1), p.topicAlias > 0, TopicAlias(p.topicAlias));
    OptionalAppended(Emitted(p, order, 2), |p.responseTopic| > 0, ResponseTopic(p.responseTopic));
    OptionalAppended(Emitted(p, order, 3), |p.correlationData| > 0, CorrelationData(p.correlationData));
    PropertiesAppended(Emitted(p, order, 4), UserProperties(order, p.userProperties));
    OptionalAppended(Emitted(p, order, 5), p.subscriptionIdentifier > 0,
                     SubscriptionIdentifier(p.subscriptionIdentifier));
    OptionalAppended(Emitted(p, order, 6), |p.contentType| > 0, ContentType(p.contentType));
  }

  // What each step of the emission appends.
  lemma EncNumbers(p: PublishData, order: seq<Str>)
    ensures Enc(p, order, 0) == []
    ensures Enc(p, order, 1)
         == Enc(p, order, 0) + (if p.messageExpiryInterval > 0 then [0x02] + EncU32(p.messageExpiryInterval) else [])
    ensures Enc(p, order, 2) == Enc(p, order, 1) + (if p.topicAlias > 0 then [0x23] + EncU16(p.topicAlias) else [])
  {
    NoUserProperties(map[]);
    EncStep(p, order, 1, p.messageExpiryInterval > 0, MessageExpiryInterval(p.messageExpiryInterval));
    EncStep(p, order, 2, p.topicAlias > 0, TopicAlias(p.topicAlias));
  }

  lemma EncStrings(p: PublishData, order: seq<Str>)
    ensures Enc(p, order, 3)
         == Enc(p, order, 2) + (if |p.responseTopic| > 0 then [0x08] + EncStr(p.responseTopic) else [])
    ensures Enc(p, order, 4)
         == Enc(p, order, 3) + (if |p.correlationData| > 0 then [0x09] + EncStr(p.correlationData) else [])
  {
    hide Enc;
    hide EncStr;
    EncStep(p, order, 3, |p.responseTopic| > 0, ResponseTopic(p.responseTopic));
    EncStep(p, order, 4, |p.correlationData| > 0, CorrelationData(p.correlationData));
  }

  lemma EncUser(p: PublishData, order: seq<Str>)
    ensures Enc(p, order, 5) == Enc(p, order, 4) + EncProperties(UserProperties(order, p.userProperties))
  {
    hide EncProperties;
    hide UserProperties;
    PropertiesAppended(Emitted(p, order, 4), UserProperties(order, p.userProperties));
  }

  lemma EncLast(p: PublishData, order: seq<Str>)
    ensures Enc(p, order, 6) == Enc(p, order, 5)
              + (if p.subscriptionIdentifier > 0 then [0x0B] + EncVar(p.subscriptionIdentifier) else [])
    ensures Enc(p, order, 7) == Enc(p, order, 6) + (if |p.contentType| > 0 then [0x03] + EncStr(p.contentType) else [])
  {
    hide Enc;
    hide EncStr;
    hide EncVar;
    EncStep(p, order, 6, p.subscriptionIdentifier > 0, SubscriptionIdentifier(p.subscriptionIdentifier));
    EncStep(p, order, 7, |p.contentType| > 0, ContentType(p.contentType));
  }

  lemma EncStep(p: PublishData, order: seq<Str>, k: nat, present: bool, x: Property)
    requires 1 <= k <= 7 && Step(p, order, k) == Optional(present, x)
    ensures Enc(p, order, k) == Enc(p, order, k - 1) + if present then EncProperty(x) else []
  {
    hide EncProperties;
    hide EncProperty;
    OptionalAppended(Emitted(p, order, k - 1), present, x);
  }

  // The flags as WriteTo puts them together are a byte.
  lemma FlagByte(p: PublishData)
    ensures FlagBits(p) < 256
    ensures var low := BitOr(if p.retain then 1 else 0, p.qos * 2 % 256);
      FlagBits(p) == if p.duplicate then BitOr(low, 8) else low
    ensures BitOr(if p.retain then 1 else 0, p.qos * 2 % 256) < 256
  {
    assert forall x: nat :: BitOr(x, 0) == x;
    hide BitOr;
    assert Pow2(8) == 256;
    OrBelow(if p.retain then 1 else 0, p.qos * 2 % 256, 8);
    OrBelow(BitOr(if p.retain then 1 else 0, p.qos * 2 % 256), if p.duplicate then 8 else 0, 8);
  }

  lemma HeadLength(p: PublishData)
    ensures |PublishHead(p)| % TWO_TO_THE_32
         == if p.qos > 0 then Add32(StrLength(p.topic, false), 2) else StrLength(p.topic, false)
  {
    hide EncStr;
    StrLengthExact(p.topic);
    Add32Sum(2 + |p.topic|, 2);
  }

  lemma EncWhole(p: PublishData, order: seq<Str>)
    ensures Enc(p, order, 7) == EncProperties(PropertyList(p, order))
  {
  }

  lemma EncBeforeUser(p: PublishData, order: seq<Str>, order': seq<Str>)
    ensures Enc(p, order, 4) == Enc(p, order', 4)
  {
    EmittedBeforeUser(p, order, order', 4);
  }
}
