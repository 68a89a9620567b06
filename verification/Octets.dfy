// The bytes on the wire, one by one: the identifiers, the byte order and the flag bits that MQTT 5.0 prescribes, which
// reading back what was written says nothing about.
module Octets {
  import opened Bits
  import opened Primitives
  import opened Properties
  import opened Frames
  import Publish
  import Acks
  import Subscriptions

  // Section 1.5.4 of MQTT 5.0: the length in two bytes, most significant byte first, and the bytes of the string.
  function Prefixed(s: Str): Str
    requires |s| < 0x1_0000
  {
    [|s| / 256, |s| % 256] + s
  }

  // Table 2-4 in section 2.2.2.2 of MQTT 5.0.
  lemma PropertyOctets(p: Property)
    requires WithinBounds(p)
    ensures match p
      case MessageExpiryInterval(v) =>
        EncProperty(p) == [0x02, v / 0x100_0000, v / 0x1_0000 % 0x100, v / 0x100 % 0x100, v % 0x100]
      case TopicAlias(v) => EncProperty(p) == [0x23, v / 0x100, v % 0x100]
      case ResponseTopic(s) => EncProperty(p) == [0x08] + Prefixed(s)
      case CorrelationData(s) => EncProperty(p) == [0x09] + Prefixed(s)
      case UserProperty(k, v) => EncProperty(p) == [0x26] + Prefixed(k) + Prefixed(v)
      case SubscriptionIdentifier(v) => EncProperty(p) == [0x0B] + EncVar(v)
      case ContentType(s) => EncProperty(p) == [0x03] + Prefixed(s)
      case ReasonString(s) => EncProperty(p) == [0x1F] + Prefixed(s)
  {
    hide EncVar;
    match p
    case MessageExpiryInterval(_) =>
    case TopicAlias(_) =>
    case ResponseTopic(s) => StringOctets(s);
    case CorrelationData(s) => StringOctets(s);
    case UserProperty(k, v) =>
      StringOctets(k);
      StringOctets(v);
    case SubscriptionIdentifier(_) =>
    case ContentType(s) => StringOctets(s);
    case ReasonString(s) => StringOctets(s);
  }

  lemma StringOctets(s: Str)
    requires |s| < 0x1_0000
    ensures EncStr(s) == Prefixed(s)
  {
    assert |s| % 0x1_0000 == |s|;
  }

  // Section 3.3.1 of MQTT 5.0: bit 3 is DUP, bits 2 and 1 are the QoS, bit 0 is RETAIN.
  lemma PublishFirstByte(p: Publish.PublishData, order: seq<Str>)
    requires p.qos < 4
    ensures Publish.PublishFrame(p, order).first
         == 0x30 + (if p.duplicate then 8 else 0) + 2 * p.qos + if p.retain then 1 else 0
  {
    Publish.FlagBitsSum(p);
    hide Publish.FlagBits;
  }

  function Octets16(v: uint16): Str {
    [v / 0x100, v % 0x100]
  }

  // Section 3.3 of MQTT 5.0: topic, packet identifier for QoS > 0, properties and payload.
  lemma PublishOctets(p: Publish.PublishData, order: seq<Str>)
    requires Publish.Carriable(p, order)
    ensures var f := Publish.PublishFrame(p, order);
      Wire(f) == [f.first] + EncVar(|Body(f)|) + Prefixed(p.topic)
                 + (if p.qos > 0 then Octets16(p.packetIdentifier) else [])
                 + EncVar(|EncProperties(f.properties)|) + EncProperties(f.properties) + p.payload
  {
    hide EncVar;
    hide EncProperties;
    hide PropertiesLength;
    hide Remaining;
    hide Publish.PropertyList;
    hide Publish.FlagBits;
    hide EncStr;
    InBoundsFrame(Publish.PublishFrame(p, order));
    StringOctets(p.topic);
  }

  // Sections 3.4 to 3.7: type and flags, packet identifier, reason code, properties. The reason code is left out only
  // if it is 0 and there are no properties, the properties length never.
  lemma AckOctets(kind: Acks.AckKind, a: Acks.AckData, order: seq<Str>)
    requires Acks.Carriable(a, order)
    ensures var f := Acks.AckFrame(kind, 0, a, order);
      var ps := Acks.AckProperties(a, order);
      Wire(f) == [match kind case Puback => 0x40 case Pubrec => 0x50 case Pubrel => 0x62 case Pubcomp => 0x70]
                 + EncVar(|Body(f)|) + Octets16(a.packetIdentifier)
                 + (if a.reasonCode == 0 && EncProperties(ps) == [] then [] else [a.reasonCode])
                 + EncVar(|EncProperties(ps)|) + EncProperties(ps)
  {
    hide EncVar;
    hide EncProperties;
    hide PropertiesLength;
    hide Remaining;
    hide Acks.AckProperties;
    Acks.AnyKindInBounds(kind, 0, a, order);
    InBoundsFrame(Acks.AckFrame(kind, 0, a, order));
  }

  // Sections 3.8 and 3.10: a filter in the payload, with its options byte in SUBSCRIBE.
  lemma TopicOctets(t: Subscriptions.Topic)
    requires |t.filter| < 0x1_0000
    ensures Subscriptions.EncTopic(t, true) == Prefixed(t.filter) + [t.options]
    ensures Subscriptions.EncTopic(t, false) == Prefixed(t.filter)
  {
    StringOctets(t.filter);
  }

  lemma RequestOctets(id: uint16, subscriptionIdentifier: uint32, m: StringMap, topics: seq<Subscriptions.Topic>,
                      order: seq<Str>)
    ensures var f := Subscriptions.SubscribeFrame(id, subscriptionIdentifier, m, topics, order);
      InBounds(f) ==>
        Wire(f) == [0x82] + EncVar(|Body(f)|) + Octets16(id) + EncVar(|EncProperties(f.properties)|)
                   + EncProperties(f.properties) + Subscriptions.EncTopics(topics, true)
    ensures var f := Subscriptions.UnsubscribeFrame(id, m, topics, order);
      InBounds(f) ==>
        Wire(f) == [0xA2] + EncVar(|Body(f)|) + Octets16(id) + EncVar(|EncProperties(f.properties)|)
                   + EncProperties(f.properties) + Subscriptions.EncTopics(topics, false)
  {
    hide EncVar;
    hide EncProperties;
    hide PropertiesLength;
    hide Remaining;
    hide Subscriptions.EncTopics;
    var f := Subscriptions.SubscribeFrame(id, subscriptionIdentifier, m, topics, order);
    var g := Subscriptions.UnsubscribeFrame(id, m, topics, order);
    if InBounds(f) {
      InBoundsFrame(f);
    }
    if InBounds(g) {
      InBoundsFrame(g);
    }
  }
}
