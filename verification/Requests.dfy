// What a server makes of SUBSCRIBE and UNSUBSCRIBE: a reader written from sections 3.8 and 3.10 of MQTT 5.0, which the
// client does not have, and the proof that it recovers what the client's writers were given.
module Requests {
  import opened Bits
  import opened Primitives
  import opened Properties
  import opened Frames
  import opened Subscriptions

  const SUBSCRIBE_PROPERTIES: set<byte> := {0x0B, 0x26}
  const UNSUBSCRIBE_PROPERTIES: set<byte> := {0x26}

  datatype Request = Request(first: byte, identifier: uint16, properties: seq<Property>, topics: seq<Topic>)

  // The payload: topic filters up to its end, each followed by an options byte in SUBSCRIBE.
  function ReadTopics(s: Str, withOptions: bool): Parsed<seq<Topic>>
    decreases |s|
  {
    if s == [] then Got([], [])
    else
      match ReadTopic(s, withOptions)
      case Failed(e) => Failed(e)
      case Got(t, rest) =>
        match ReadTopics(rest, withOptions)
        case Failed(e) => Failed(e)
        case Got(ts, left) => Got([t] + ts, left)
  }

  function ReadTopic(s: Str, withOptions: bool): (r: Parsed<Topic>)
    ensures r.Got? ==> |r.rest| < |s|
  {
    match ReadStr(s)
    case Failed(e) => Failed(e)
    case Got(filter, s1) =>
      if !withOptions then Got(Topic(filter, 0), s1)
      else if s1 == [] then Failed(EndOfInput)
      else Got(Topic(filter, s1[0]), s1[1..])
  }

  function ReadRequest(s: Str): Parsed<Request> {
    match ReadHead(s)
    case Failed(e) => Failed(e)
    case Got(h, s1) =>
      if h.first != 0x82 && h.first != 0xA2 then Failed(UnexpectedPacketType)
      else if |s1| < h.remaining then Failed(EndOfInput)
      else
        match ReadRequestBody(h.first, s1[..h.remaining])
        case Failed(e) => Failed(e)
        case Got(q, _) => Got(q, s1[h.remaining..])
  }

  function Known(first: byte): set<byte> {
    if first == 0x82 then SUBSCRIBE_PROPERTIES else UNSUBSCRIBE_PROPERTIES
  }

  // The property block up to its end; a property that does not belong to the packet is malformed (section 2.2.2.2).
  function ReadProperties(known: set<byte>, s: Str): Parsed<seq<Property>>
    decreases |s|
  {
    if s == [] then Got([], [])
    else if s[0] !in known then Failed(MalformedPacket)
    else
      match ReadBody(s[0], s[1..])
      case Failed(e) => Failed(e)
      case Got(p, rest) =>
        match ReadProperties(known, rest)
        case Failed(e) => Failed(e)
        case Got(ps, left) => Got([p] + ps, left)
  }

  // A payload without a topic filter is a protocol error.
  function ReadRequestBody(first: byte, s: Str): Parsed<Request> {
    match ReadU16(s)
    case Failed(e) => Failed(e)
    case Got(id, s1) =>
      match ReadVar(s1)
      case Failed(e) => Failed(e)
      case Got(len, s2) =>
        if |s2| < len then Failed(EndOfInput)
        else
          match ReadProperties(Known(first), s2[..len])
          case Failed(e) => Failed(e)
          case Got(ps, _) =>
            match ReadTopics(s2[len..], first == 0x82)
            case Failed(e) => Failed(e)
            case Got(topics, _) =>
              if topics == [] then Failed(MalformedPacket) else Got(Request(first, id, ps, topics), [])
  }

  // UNSUBSCRIBE carries no options.
  function Plain(topics: seq<Topic>, withOptions: bool): seq<Topic> {
    if withOptions then topics else seq(|topics|, i requires 0 <= i < |topics| => Topic(topics[i].filter, 0))
  }

  lemma {:induction false} EncTopicsFirst(topics: seq<Topic>, withOptions: bool)
    requires topics != []
    ensures EncTopics(topics, withOptions) == EncTopic(topics[0], withOptions) + EncTopics(topics[1..], withOptions)
  {
    var n := |topics| - 1;
    if n > 0 {
      EncTopicsFirst(topics[..n], withOptions);
      assert topics[..n][1..] == topics[1..][..n - 1];
    } else {
      assert topics[..0] == topics[1..];
    }
  }

  lemma TopicReadBack(t: Topic, withOptions: bool, rest: Str)
    requires |t.filter| < 0x1_0000
    ensures ReadTopic(EncTopic(t, withOptions) + rest, withOptions)
         == Got(Topic(t.filter, if withOptions then t.options else 0), rest)
  {
    hide EncStr;
    hide ReadStr;
    var tail := if withOptions then [t.options] + rest else rest;
    assert EncTopic(t, withOptions) + rest == EncStr(t.filter) + tail;
    StrRoundTrip(t.filter, tail);
  }

  lemma {:induction false} TopicsReadBack(topics: seq<Topic>, withOptions: bool)
    requires forall t <- topics :: |t.filter| < 0x1_0000
    ensures ReadTopics(EncTopics(topics, withOptions), withOptions) == Got(Plain(topics, withOptions), [])
  {
    hide EncTopic;
    hide ReadTopic;
    if topics != [] {
      var s := EncTopics(topics, withOptions);
      EncTopicsFirst(topics, withOptions);
      TopicReadBack(topics[0], withOptions, EncTopics(topics[1..], withOptions));
      TopicsReadBack(topics[1..], withOptions);
      assert s != [] by { TopicNonEmpty(topics[0], withOptions); }
      assert Plain(topics, withOptions)
          == [Topic(topics[0].filter, if withOptions then topics[0].options else 0)] + Plain(topics[1..], withOptions);
    }
  }

  lemma TopicNonEmpty(t: Topic, withOptions: bool)
    ensures EncTopic(t, withOptions) != []
  {
    assert |EncStr(t.filter)| == 2 + |t.filter|;
  }

  lemma PlainLength(topics: seq<Topic>, withOptions: bool)
    ensures |Plain(topics, withOptions)| == |topics|
  {
  }

  lemma {:induction false} PropertiesReadBack(known: set<byte>, ps: seq<Property>)
    requires AllReadable(known, ps)
    ensures ReadProperties(known, EncProperties(ps)) == Got(ps, [])
  {
    hide EncBody;
    hide ReadBody;
    hide Identifier;
    if ps != [] {
      var p, tail := ps[0], ps[1..];
      assert ps == [p] + tail;
      EncPropertiesAppend([p], tail);
      assert EncProperties([p]) == EncProperty(p) by {
        EncPropertiesSnoc([], p);
        assert [] + [p] == [p];
      }
      var s := EncProperties(ps);
      assert s == [Identifier(p)] + (EncBody(p) + EncProperties(tail));
      assert s[1..] == EncBody(p) + EncProperties(tail);
      BodyRoundTrip(p, EncProperties(tail));
      PropertiesReadBack(known, tail);
    }
  }

  lemma BodyReadBack(f: Frame, id: uint16, topics: seq<Topic>)
    requires InBounds(f) && AllReadable(Known(f.first), f.properties)
    requires topics != [] && forall t <- topics :: |t.filter| < 0x1_0000
    requires f.head == EncU16(id) && f.tail == EncTopics(topics, f.first == 0x82)
    ensures ReadRequestBody(f.first, Body(f))
         == Got(Request(f.first, id, f.properties, Plain(topics, f.first == 0x82)), [])
  {
    hide EncVar;
    hide ReadVar;
    hide EncU16;
    hide ReadU16;
    hide EncProperties;
    hide PropertiesLength;
    hide ReadProperties;
    hide ReadTopics;
    hide EncTopics;
    hide Plain;
    hide AllReadable;
    InBoundsFrame(f);
    hide InBounds;
    var ps, len := f.properties, PropertiesLength(f.properties);
    var s2 := EncProperties(ps) + f.tail;
    assert Body(f) == EncU16(id) + (EncVar(len) + s2);
    U16RoundTrip(id, EncVar(len) + s2);
    VarRoundTrip(len, s2);
    assert s2[..len] == EncProperties(ps) && s2[len..] == f.tail;
    PropertiesReadBack(Known(f.first), ps);
    assert |Plain(topics, f.first == 0x82)| == |topics| by { PlainLength(topics, f.first == 0x82); }
    TopicsReadBack(topics, f.first == 0x82);
  }

  lemma RequestReadBack(f: Frame, id: uint16, topics: seq<Topic>, rest: Str)
    requires InBounds(f) && AllReadable(Known(f.first), f.properties) && (f.first == 0x82 || f.first == 0xA2)
    requires topics != [] && forall t <- topics :: |t.filter| < 0x1_0000
    requires f.head == EncU16(id) && f.tail == EncTopics(topics, f.first == 0x82)
    ensures ReadRequest(Wire(f) + rest)
         == Got(Request(f.first, id, f.properties, Plain(topics, f.first == 0x82)), rest)
  {
    HeadRoundTrip(f, rest);
    BodyReadBack(f, id, topics);
    hide Body;
    hide Wire;
    hide ReadHead;
    hide ReadRequestBody;
    hide EncTopics;
    hide Plain;
    assert (Body(f) + rest)[..|Body(f)|] == Body(f);
    assert (Body(f) + rest)[|Body(f)|..] == rest;
  }

  lemma RequestPropertiesKnown(subscriptionIdentifier: uint32, m: StringMap, order: seq<Str>)
    ensures forall p <- SubscribeProperties(subscriptionIdentifier, m, order) :: Identifier(p) in SUBSCRIBE_PROPERTIES
    ensures forall p <- UserProperties(order, m) :: Identifier(p) in UNSUBSCRIBE_PROPERTIES
  {
    forall p <- UserProperties(order, m) ensures Identifier(p) == 0x26 {
    }
  }

  // SUBSCRIBE (section 3.8): the server sees the packet identifier, the subscription identifier and the user
  // properties that are set, and every topic filter with its options, in order.
  lemma SubscribeReadBack(id: uint16, subscriptionIdentifier: uint32, m: StringMap, topics: seq<Topic>,
                          order: seq<Str>, rest: Str)
    requires InBounds(SubscribeFrame(id, subscriptionIdentifier, m, topics, order))
    requires topics != [] && forall t <- topics :: |t.filter| < 0x1_0000
    ensures ReadRequest(Wire(SubscribeFrame(id, subscriptionIdentifier, m, topics, order)) + rest)
         == Got(Request(0x82, id, SubscribeProperties(subscriptionIdentifier, m, order), topics), rest)
  {
    hide SubscribeProperties;
    RequestPropertiesKnown(subscriptionIdentifier, m, order);
    RequestReadBack(SubscribeFrame(id, subscriptionIdentifier, m, topics, order), id, topics, rest);
  }

  // UNSUBSCRIBE (section 3.10): likewise, without the options, which it does not carry.
  lemma UnsubscribeReadBack(id: uint16, m: StringMap, topics: seq<Topic>, order: seq<Str>, rest: Str)
    requires InBounds(UnsubscribeFrame(id, m, topics, order))
    requires topics != [] && forall t <- topics :: |t.filter| < 0x1_0000
    ensures ReadRequest(Wire(UnsubscribeFrame(id, m, topics, order)) + rest)
         == Got(Request(0xA2, id, UserProperties(order, m), Plain(topics, false)), rest)
  {
    RequestPropertiesKnown(0, m, order);
    RequestReadBack(UnsubscribeFrame(id, m, topics, order), id, topics, rest);
  }

  // What a server takes from the properties, one after the other: a subscription identifier, 0 standing for none, and
  // the user properties.
  datatype Wishes = Wishes(subscriptionIdentifier: uint32, userProperties: StringMap)

  function Note(w: Wishes, p: Property): Wishes {
    match p
    case SubscriptionIdentifier(v) => w.(subscriptionIdentifier := v)
    case UserProperty(k, v) => w.(userProperties := w.userProperties[k := v])
    case _ => w
  }

  // It is what the client was given, whatever the order of the user properties.
  lemma WishesExact(subscriptionIdentifier: uint32, m: StringMap, order: seq<Str>)
    requires IterationOrder(order, m)
    ensures Fold(Note, Wishes(0, map[]), SubscribeProperties(subscriptionIdentifier, m, order))
         == Wishes(subscriptionIdentifier, m)
    ensures Fold(Note, Wishes(0, map[]), UserProperties(order, m)) == Wishes(0, m)
  {
    hide Fold;
    hide Restrict;
    var none, w := Wishes(0, map[]), Wishes(subscriptionIdentifier, map[]);
    var put := (d: Wishes, u: StringMap) => d.(userProperties := u);
    var first := Optional(subscriptionIdentifier > 0, SubscriptionIdentifier(subscriptionIdentifier));
    FoldSnoc(Note, none, [], SubscriptionIdentifier(subscriptionIdentifier));
    assert Fold(Note, none, first) == w;
    RestrictAll(order, m);
    FoldUserProperties(Note, put, w, order, m);
    FoldUserProperties(Note, put, none, order, m);
    FoldAppend(Note, none, first, UserProperties(order, m));
  }
}
