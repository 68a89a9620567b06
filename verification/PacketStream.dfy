// Receiving packets off a connection: the header-first dispatch of Client.Poll (mqtt/client.go) over the packet
// readers.
module PacketStream {
  import opened Bits
  import opened Primitives
  import opened Properties
  import opened Frames
  import opened Truncation
  import Publish
  import Acks
  import Subscriptions

  datatype Packet =
    | PublishPacket(publish: Publish.PublishData)
    | AckPacket(kind: Acks.AckKind, ack: Acks.AckData)
    | SubackPacket(suback: Subscriptions.SubackData)
    | PingResponse

  function ReadPacket(s: Str): (r: Parsed<Packet>)
    ensures r.Got? ==> |r.rest| < |s|
  {
    match ReadHead(s)
    case Failed(e) => Failed(e)
    case Got(h, rest) => ReadBody(h, rest)
  }

  function ReadBody(h: Head, s: Str): (r: Parsed<Packet>)
    ensures r.Got? ==> |r.rest| <= |s|
  {
    var t := h.first / 16;
    if t == 3 then
      match Publish.ReadPublish(Publish.UNSET, h, s)
      case Failed(e) => Failed(e)
      case Got(p, rest) => Got(PublishPacket(p), rest)
    else if 4 <= t <= 7 then
      match Acks.ReadAck(Acks.UNSET, h.remaining, s)
      case Failed(e) => Failed(e)
      case Got(a, rest) => Got(AckPacket(KindOf(t), a), rest)
    else if t == 9 then
      match Subscriptions.ReadSuback(Subscriptions.UNSET, h.remaining, s)
      case Failed(e) => Failed(e)
      case Got(a, rest) => Got(SubackPacket(a), rest)
    else if t == 13 then Got(PingResponse, s)
    else if t == 11 || t == 14 || t == 15 then Failed(NotModelled)
    else Failed(UnexpectedPacketType)
  }

  function KindOf(t: byte): Acks.AckKind
    requires 4 <= t <= 7
  {
    if t == 4 then Acks.Puback else if t == 5 then Acks.Pubrec else if t == 6 then Acks.Pubrel else Acks.Pubcomp
  }

  // Poll, called until the stream is exhausted.
  function ReadAll(s: Str): Parsed<seq<Packet>>
    decreases |s|
  {
    if s == [] then Got([], [])
    else
      match ReadPacket(s)
      case Failed(e) => Failed(e)
      case Got(p, rest) =>
        match ReadAll(rest)
        case Failed(e) => Failed(e)
        case Got(ps, left) => Got([p] + ps, left)
  }

  // One turn of Poll up to the point where the packet is known.
  method ReceivePacket(r: Stream) returns (packet: Packet, status: Status)
    modifies r
    ensures match ReadPacket(old(r.rest))
      case Got(p, rest) => status.Read? && packet == p && r.rest == rest
      case Failed(e) => status == Status.Error(e)
  {
    hide ReadHead;
    packet := PingResponse;
    var header := new FixedHeader(0, 0);
    status := header.ReadFrom(r);
    if status.Error? {
      return;
    }
    var t := header.GetType();
    if t == 3 {
      var publish := new Publish.Publish(header.Value());
      status := publish.ReadFrom(r);
      packet := PublishPacket(publish.Value());
    } else if 4 <= t <= 7 {
      var ack := new Acks.Ack(header.Value());
      status := ack.ReadFrom(r);
      packet := AckPacket(KindOf(t), ack.Value());
    } else if t == 9 {
      var suback := new Subscriptions.Suback(header.Value());
      status := suback.ReadFrom(r);
      packet := SubackPacket(suback.Value());
    } else if t == 13 {
    } else if t == 11 || t == 14 || t == 15 {
      status := Status.Error(NotModelled);
    } else {
      status := Status.Error(UnexpectedPacketType);
    }
  }

  // ---------- Framed streams ----------

  // A packet on its way to the client.
  datatype Sent =
    | Written(packet: Packet, order: seq<Str>)   // a PUBLISH or an acknowledgement as this client writes it
    | ServerPublish(publish: Publish.PublishData, properties: seq<Property>)   // with properties in any order
    | ServerAck(kind: Acks.AckKind, id: uint16, code: byte, properties: seq<Property>)
    | WithoutProperties(kind: Acks.AckKind, hi: byte, lo: byte, code: byte)
    | IdentifierOnly(kind: Acks.AckKind, hi: byte, lo: byte)
    | ServerSuback(id: uint16, properties: seq<Property>, reasonCodes: Str)
    | Ping

  ghost predicate Carriable(o: Sent) {
    match o
    case Written(PublishPacket(p), order) => Publish.Carriable(p, order)
    case Written(AckPacket(_, a), order) => Acks.Carriable(a, order)
    case Written(_, _) => false
    case ServerPublish(p, ps) => Publish.Sendable(p, ps)
    case ServerAck(kind, id, code, ps) =>
      InBounds(Acks.FullFrame(kind, id, code, ps)) && AllReadable(ACK_PROPERTIES, ps)
    case ServerSuback(id, ps, codes) =>
      InBounds(Subscriptions.SubackFrame(id, ps, codes)) && AllReadable(ACK_PROPERTIES, ps) && codes != []
    case _ => true
  }

  // The first byte of an acknowledgement, as sections 3.4 to 3.7 of MQTT 5.0 have it.
  function AckByte(kind: Acks.AckKind): byte {
    match kind case Puback => 0x40 case Pubrec => 0x50 case Pubrel => 0x62 case Pubcomp => 0x70
  }

  function Bytes(o: Sent): Str {
    match o
    case Written(PublishPacket(p), order) => Wire(Publish.PublishFrame(p, order))
    case Written(AckPacket(kind, a), order) => Wire(Acks.AckFrame(kind, 0, a, order))
    case Written(_, _) => [0]
    case ServerPublish(p, ps) => Wire(Publish.AnyFrame(p, ps))
    case ServerAck(kind, id, code, ps) => Wire(Acks.FullFrame(kind, id, code, ps))
    case WithoutProperties(kind, hi, lo, code) => [AckByte(kind), 3, hi, lo, code]
    case IdentifierOnly(kind, hi, lo) => [AckByte(kind), 2, hi, lo]
    case ServerSuback(id, ps, codes) => Wire(Subscriptions.SubackFrame(id, ps, codes))
    case Ping => [0xD0, 0x00]
  }

  // What the client makes of it.
  function Received(o: Sent): Packet {
    match o
    case Written(PublishPacket(p), _) => PublishPacket(Publish.Received(p))
    case Written(packet, _) => packet
    case ServerPublish(p, ps) => PublishPacket(Publish.ApplyAll(Publish.Opened(p), ps).(payload := p.payload))
    case ServerAck(kind, id, code, ps) =>
      AckPacket(kind, Acks.ApplyAll(Acks.UNSET.(packetIdentifier := id, reasonCode := code), ps))
    case WithoutProperties(kind, hi, lo, code) => AckPacket(kind, Acks.AckData(hi * 256 + lo, code, [], map[]))
    case IdentifierOnly(kind, hi, lo) => AckPacket(kind, Acks.AckData(hi * 256 + lo, 0, [], map[]))
    case ServerSuback(id, ps, codes) =>
      SubackPacket(Subscriptions.ApplyAll(Subscriptions.UNSET.(packetIdentifier := id), ps).(reasonCodes := codes))
    case Ping => PingResponse
  }

  function EncodeAll(os: seq<Sent>): Str {
    if os == [] then [] else Bytes(os[0]) + EncodeAll(os[1..])
  }

  function ReceivedAll(os: seq<Sent>): seq<Packet> {
    if os == [] then [] else [Received(os[0])] + ReceivedAll(os[1..])
  }

  lemma FrameRead(f: Frame, rest: Str)
    requires InBounds(f)
    ensures ReadPacket(Wire(f) + rest) == ReadBody(Head(f.first, |Body(f)|), Body(f) + rest)
  {
    hide ReadBody;
    hide ReadHead;
    hide Wire;
    hide Body;
    HeadRoundTrip(f, rest);
  }

  lemma ShortHead(first: byte, body: Str, rest: Str)
    requires |body| < 128
    ensures ReadHead([first, |body|] + body + rest) == Got(Head(first, |body|), body + rest)
  {
    assert ([first, |body|] + body + rest)[1..] == EncVar(|body|) + (body + rest);
    VarRoundTrip(|body|, body + rest);
  }

  lemma PublishRead(p: Publish.PublishData, ps: seq<Property>, rest: Str)
    requires Publish.Sendable(p, ps)
    ensures ReadPacket(Wire(Publish.AnyFrame(p, ps)) + rest) == Got(Received(ServerPublish(p, ps)), rest)
  {
    hide Wire;
    hide Body;
    hide Publish.ReadPublish;
    hide Publish.FlagBits;
    hide Publish.PublishHead;
    hide AllReadable;
    FrameRead(Publish.AnyFrame(p, ps), rest);
    Publish.ServerRoundTrip(p, ps, rest);
  }

  lemma AckRead(kind: Acks.AckKind, f: Frame, rest: Str, a: Acks.AckData)
    requires InBounds(f) && f.first == AckByte(kind)
    requires Acks.ReadAck(Acks.UNSET, |Body(f)|, Body(f) + rest) == Got(a, rest)
    ensures ReadPacket(Wire(f) + rest) == Got(AckPacket(kind, a), rest)
  {
    hide Wire;
    hide Body;
    hide Acks.ReadAck;
    FrameRead(f, rest);
  }

  lemma ShortAckRead(kind: Acks.AckKind, hi: byte, lo: byte, code: Str, rest: Str)
    requires |code| <= 1
    ensures ReadPacket([AckByte(kind), 2 + |code|] + ([hi, lo] + code) + rest)
         == Got(AckPacket(kind, Acks.AckData(hi * 256 + lo, if code == [] then 0 else code[0], [], map[])), rest)
  {
    hide Acks.ReadAck;
    hide ReadHead;
    var body := [hi, lo] + code;
    ShortHead(AckByte(kind), body, rest);
    if code == [] {
      assert body == [hi, lo];
      Acks.IdentifierOnly(hi, lo, rest);
    } else {
      assert body == [hi, lo, code[0]];
      Acks.WithoutProperties(hi, lo, code[0], rest);
    }
  }

  lemma WrittenRoundTrip(packet: Packet, order: seq<Str>, rest: Str)
    requires Carriable(Written(packet, order))
    ensures ReadPacket(Bytes(Written(packet, order)) + rest) == Got(Received(Written(packet, order)), rest)
  {
    hide Wire;
    hide Body;
    hide ReadHead;
    hide Publish.ReadPublish;
    hide Acks.ReadAck;
    match packet
    case PublishPacket(p) =>
      FrameRead(Publish.PublishFrame(p, order), rest);
      Publish.PublishRoundTrip(p, order, rest);
    case AckPacket(kind, a) =>
      Acks.AnyKindInBounds(kind, 0, a, order);
      Acks.AckRoundTrip(kind, 0, a, order, rest);
      AckRead(kind, Acks.AckFrame(kind, 0, a, order), rest, a);
  }

  lemma SubackRead(id: uint16, ps: seq<Property>, codes: Str, rest: Str)
    requires Carriable(ServerSuback(id, ps, codes))
    ensures ReadPacket(Bytes(ServerSuback(id, ps, codes)) + rest) == Got(Received(ServerSuback(id, ps, codes)), rest)
  {
    hide Wire;
    hide Body;
    hide ReadHead;
    hide Subscriptions.ReadSuback;
    hide AllReadable;
    hide Fold;
    FrameRead(Subscriptions.SubackFrame(id, ps, codes), rest);
    Subscriptions.SubackSplit(id, ps, codes, rest);
  }

  // A PUBLISH, an acknowledgement in any of its forms, a SUBACK or a PINGRESP is recognised by its header and read back
  // whole; what follows it is untouched.
  lemma PacketRoundTrip(o: Sent, rest: Str)
    requires Carriable(o)
    ensures ReadPacket(Bytes(o) + rest) == Got(Received(o), rest)
  {
    hide ReadPacket;
    hide Wire;
    hide Fold;
    hide AllReadable;
    match o
    case Written(packet, order) => WrittenRoundTrip(packet, order, rest);
    case ServerPublish(p, ps) => PublishRead(p, ps, rest);
    case ServerAck(kind, id, code, ps) =>
      Acks.ServerAck(kind, id, code, ps, rest);
      AckRead(kind, Acks.FullFrame(kind, id, code, ps), rest,
              Acks.ApplyAll(Acks.UNSET.(packetIdentifier := id, reasonCode := code), ps));
    case WithoutProperties(kind, hi, lo, code) =>
      ShortAckRead(kind, hi, lo, [code], rest);
      assert Bytes(o) == [AckByte(kind), 3] + ([hi, lo] + [code]);
    case IdentifierOnly(kind, hi, lo) =>
      ShortAckRead(kind, hi, lo, [], rest);
      assert Bytes(o) == [AckByte(kind), 2] + ([hi, lo] + []);
    case ServerSuback(id, ps, codes) => SubackRead(id, ps, codes, rest);
    case Ping => PingRead(rest);
  }

  lemma PingRead(rest: Str)
    ensures ReadPacket([0xD0, 0x00] + rest) == Got(PingResponse, rest)
  {
    ShortHead(0xD0, [], rest);
    assert [0xD0, 0x00] + [] + rest == [0xD0, 0x00] + rest;
    assert [] + rest == rest;
  }

  // A SUBACK with a reason string and user properties, in any order, is read back whole.
  lemma SubackReadBack(a: Subscriptions.SubackData, order: seq<Str>, rest: Str)
    requires IterationOrder(order, a.userProperties) && a.reasonCodes != []
    requires InBounds(Subscriptions.SubackFrame(a.packetIdentifier, Subscriptions.ReasonAndUser(a, order),
                                                a.reasonCodes))
    ensures
      var f := Subscriptions.SubackFrame(a.packetIdentifier, Subscriptions.ReasonAndUser(a, order), a.reasonCodes);
      ReadPacket(Wire(f) + rest) == Got(SubackPacket(a), rest)
  {
    hide Wire;
    hide Body;
    hide ReadHead;
    hide Subscriptions.ReadSuback;
    var f := Subscriptions.SubackFrame(a.packetIdentifier, Subscriptions.ReasonAndUser(a, order), a.reasonCodes);
    FrameRead(f, rest);
    Subscriptions.SubackRoundTrip(a, order, rest);
  }

  // A framed stream reads back: receiving over the concatenated bytes of any list of such packets yields exactly that
  // list and leaves no byte.
  lemma {:induction false} StreamRoundTrip(os: seq<Sent>)
    requires forall o <- os :: Carriable(o)
    ensures ReadAll(EncodeAll(os)) == Got(ReceivedAll(os), [])
  {
    hide Bytes;
    hide ReadPacket;
    hide Received;
    hide Carriable;
    if os != [] {
      PacketRoundTrip(os[0], EncodeAll(os[1..]));
      StreamRoundTrip(os[1..]);
      NonEmpty(os[0]);
    }
  }

  lemma NonEmpty(o: Sent)
    ensures |Bytes(o)| > 0
  {
    hide Publish.PublishFrame;
    hide Acks.AckFrame;
  }

  // Hence two lists of packets with the same bytes are the same list, as a receiver sees it.
  lemma StreamInjective(os: seq<Sent>, os': seq<Sent>)
    requires (forall o <- os :: Carriable(o)) && (forall o <- os' :: Carriable(o))
    requires EncodeAll(os) == EncodeAll(os')
    ensures ReceivedAll(os) == ReceivedAll(os')
  {
    StreamRoundTrip(os);
    StreamRoundTrip(os');
  }

  // ---------- What is refused ----------

  lemma BodyExtends(h: Head, s: Str, more: Str)
    requires ReadBody(h, s) != Failed(UnexpectedPacketType) && ReadBody(h, s) != Failed(NotModelled)
    ensures Extends(ReadBody(h, s), ReadBody(h, s + more), more)
  {
    hide Publish.ReadPublish;
    hide Acks.ReadAck;
    hide Subscriptions.ReadSuback;
    PublishExtends(Publish.UNSET, h, s, more);
    AckExtends(Acks.UNSET, h.remaining, s, more);
    SubackExtends(Subscriptions.UNSET, h.remaining, s, more);
  }

  // An unexpected packet type is reported exactly for the types that only a server receives, for CONNACK after Connect
  // and for the reserved type 0.
  lemma RefusedTypes(first: byte, remaining: uint32, body: Str)
    requires remaining <= MAX_VARINT
    ensures var r := ReadPacket([first] + EncVar(remaining) + body);
      && (r == Failed(UnexpectedPacketType) <==> first / 16 in {0, 1, 2, 8, 10, 12})
      && (r == Failed(NotModelled) <==> first / 16 in {11, 14, 15})
  {
    hide ReadVar;
    hide EncVar;
    hide Publish.ReadPublish;
    hide Acks.ReadAck;
    hide Subscriptions.ReadSuback;
    var h := Head(first, remaining);
    VarRoundTrip(remaining, body);
    assert ([first] + EncVar(remaining) + body)[1..] == EncVar(remaining) + body;
    PublishExtends(Publish.UNSET, h, body, []);
    AckExtends(Acks.UNSET, remaining, body, []);
    SubackExtends(Subscriptions.UNSET, remaining, body, []);
  }

  lemma PacketExtends(s: Str, more: Str)
    requires ReadPacket(s) != Failed(UnexpectedPacketType) && ReadPacket(s) != Failed(NotModelled)
    ensures Extends(ReadPacket(s), ReadPacket(s + more), more)
  {
    hide ReadHead;
    hide ReadBody;
    HeadExtends(s, more);
    match ReadHead(s)
    case Failed(_) =>
    case Got(h, rest) => BodyExtends(h, rest, more);
  }

  // A packet of which only a part has arrived is never taken for another one: reading it reports the end of the input.
  lemma Truncated(o: Sent, k: nat)
    requires Carriable(o) && k < |Bytes(o)|
    ensures ReadPacket(Bytes(o)[..k]) == Failed(EndOfInput)
  {
    hide ReadPacket;
    hide Bytes;
    hide Carriable;
    var s, more := Bytes(o)[..k], Bytes(o)[k..];
    assert Bytes(o) == s + more && Bytes(o) + [] == Bytes(o);
    PacketRoundTrip(o, []);
    NotRefused(s, more);
    PacketExtends(s, more);
  }

  // A type that is refused is refused as soon as the header is there.
  lemma NotRefused(s: Str, more: Str)
    requires ReadPacket(s + more).Got?
    ensures ReadPacket(s) != Failed(UnexpectedPacketType) && ReadPacket(s) != Failed(NotModelled)
  {
    hide ReadHead;
    hide Publish.ReadPublish;
    hide Acks.ReadAck;
    hide Subscriptions.ReadSuback;
    HeadExtends(s, more);
    match ReadHead(s)
    case Failed(_) =>
    case Got(h, rest) =>
      PublishExtends(Publish.UNSET, h, rest, more);
      AckExtends(Acks.UNSET, h.remaining, rest, more);
      SubackExtends(Subscriptions.UNSET, h.remaining, rest, more);
  }

  // A stream cut off inside a packet yields the packets in front of it and then the end of the input.
  lemma {:induction false} TruncatedStream(os: seq<Sent>, o: Sent, k: nat)
    requires (forall x <- os :: Carriable(x)) && Carriable(o) && 0 < k < |Bytes(o)|
    ensures ReadAll(EncodeAll(os) + Bytes(o)[..k]) == Failed(EndOfInput)
  {
    hide Bytes;
    hide ReadPacket;
    hide Received;
    hide Carriable;
    if os == [] {
      Truncated(o, k);
      assert EncodeAll(os) + Bytes(o)[..k] == Bytes(o)[..k];
    } else {
      var more := EncodeAll(os[1..]) + Bytes(o)[..k];
      PacketRoundTrip(os[0], more);
      assert EncodeAll(os) + Bytes(o)[..k] == Bytes(os[0]) + more;
      TruncatedStream(os[1..], o, k);
      NonEmpty(os[0]);
    }
  }
}
