// Reading on a connection that has delivered only part of what was sent: a reader that does not report the end of the
// input has looked at nothing beyond what it consumed, and none but the dispatch reports an unexpected packet type.
module Truncation {
  import opened Bits
  import opened Primitives
  import opened Properties
  import opened Frames
  import Publish
  import Acks
  import Subscriptions

  // r is what is read of an input, and r' of the same input with more behind it.
  predicate Extends<T(==)>(r: Parsed<T>, r': Parsed<T>, more: Str) {
    match r
    case Got(v, rest) => r' == Got(v, rest + more)
    case Failed(e) => (e == EndOfInput || r' == Failed(e)) && e != UnexpectedPacketType && e != NotModelled
  }

  lemma {:induction false} VarExtends(s: Str, more: Str, val: uint32, mul: uint32)
    ensures Extends(ReadVarFrom(s, val, mul), ReadVarFrom(s + more, val, mul), more)
    decreases |s|
  {
    hide Or32;
    hide Shl32;
    if s != [] {
      assert (s + more)[1..] == s[1..] + more;
      VarExtends(s[1..], more, Or32(val, Shl32(s[0] % 128, mul)), Add32(mul, 7));
    }
  }

  lemma VarIntExtends(s: Str, more: Str)
    ensures Extends(ReadVar(s), ReadVar(s + more), more)
  {
    VarExtends(s, more, 0, 0);
  }

  lemma IntegersExtend(s: Str, more: Str)
    ensures Extends(ReadU16(s), ReadU16(s + more), more)
    ensures Extends(ReadU32(s), ReadU32(s + more), more)
  {
    if |s| >= 2 {
      assert (s + more)[2..] == s[2..] + more;
    }
    if |s| >= 4 {
      assert (s + more)[4..] == s[4..] + more;
    }
  }

  lemma StrExtends(s: Str, more: Str)
    ensures Extends(ReadStr(s), ReadStr(s + more), more)
  {
    hide ReadU16;
    IntegersExtend(s, more);
    match ReadU16(s)
    case Failed(_) =>
    case Got(length, rest) =>
      if |rest| >= length {
        assert (rest + more)[..length] == rest[..length];
        assert (rest + more)[length..] == rest[length..] + more;
      }
  }

  lemma PairExtends(s: Str, more: Str)
    ensures Extends(ReadBody(0x26, s), ReadBody(0x26, s + more), more)
  {
    hide ReadStr;
    StrExtends(s, more);
    match ReadStr(s)
    case Failed(_) =>
    case Got(_, rest) => StrExtends(rest, more);
  }

  lemma BodyExtends(id: byte, s: Str, more: Str)
    ensures Extends(ReadBody(id, s), ReadBody(id, s + more), more)
  {
    hide ReadStr;
    hide ReadU16;
    hide ReadU32;
    hide ReadVar;
    IntegersExtend(s, more);
    StrExtends(s, more);
    VarIntExtends(s, more);
    if id == 0x26 {
      PairExtends(s, more);
    }
  }

  lemma {:induction false} BlockExtends(known: set<byte>, done: seq<Property>, n: int, remaining: int, count: nat,
                                        s: Str, more: Str)
    ensures Extends(ReadBlock(known, done, n, remaining, count, s),
                    ReadBlock(known, done, n, remaining, count, s + more), more)
    decreases if remaining > 0 then remaining else 0
  {
    hide ReadBody;
    if remaining > 0 && s != [] {
      assert (s + more)[1..] == s[1..] + more;
      if s[0] in known {
        BodyExtends(s[0], s[1..], more);
        match ReadBody(s[0], s[1..])
        case Failed(_) =>
        case Got(p, rest) =>
          var c := |s| - 1 - |rest|;
          BlockExtends(known, done + [p], n + 1 + c, remaining - 1 - c, c, rest, more);
      } else {
        BlockExtends(known, done, n + 1 + count, remaining - 1 - count, count, s[1..], more);
      }
    }
  }

  lemma HeadExtends(s: Str, more: Str)
    ensures Extends(ReadHead(s), ReadHead(s + more), more)
  {
    hide ReadVar;
    if s != [] {
      assert (s + more)[1..] == s[1..] + more;
      VarIntExtends(s[1..], more);
    }
  }

  // ---------- PUBLISH ----------

  lemma PayloadExtends(p: Publish.PublishData, payloadLen: int, s: Str, more: Str)
    ensures Extends(Publish.ReadPayload(p, payloadLen, s), Publish.ReadPayload(p, payloadLen, s + more), more)
  {
    if 0 < payloadLen <= |s| {
      assert (s + more)[..payloadLen] == s[..payloadLen];
      assert (s + more)[payloadLen..] == s[payloadLen..] + more;
    }
  }

  lemma RestExtends(p: Publish.PublishData, remaining: uint32, n: int, offset: int, s: Str, more: Str)
    ensures Extends(Publish.ReadPropertiesAndPayload(p, remaining, n, offset, s),
                    Publish.ReadPropertiesAndPayload(p, remaining, n, offset, s + more), more)
  {
    hide ReadVar;
    hide ReadBlock;
    hide Publish.ReadPayload;
    VarIntExtends(s, more);
    match ReadVar(s)
    case Failed(_) =>
    case Got(propertiesLen, s1) =>
      var count := |s| - |s1|;
      BlockExtends(PUBLISH_PROPERTIES, [], n + count, propertiesLen, count, s1, more);
      match ReadBlock(PUBLISH_PROPERTIES, [], n + count, propertiesLen, count, s1)
      case Failed(_) =>
      case Got(block, s2) =>
        PayloadExtends(Publish.ApplyAll(p, block.properties), remaining - block.n + offset, s2, more);
  }

  lemma VariableHeaderExtends(p: Publish.PublishData, remaining: uint32, n: nat, offset: int, s: Str, more: Str)
    ensures Extends(Publish.ReadVariableHeader(p, remaining, n, offset, s),
                    Publish.ReadVariableHeader(p, remaining, n, offset, s + more), more)
  {
    hide ReadStr;
    hide ReadU16;
    hide Publish.ReadPropertiesAndPayload;
    StrExtends(s, more);
    match ReadStr(s)
    case Failed(_) =>
    case Got(topic, s1) =>
      var p1 := p.(topic := topic);
      if p.qos > 0 {
        IntegersExtend(s1, more);
        match ReadU16(s1)
        case Failed(_) =>
        case Got(id, s2) =>
          RestExtends(p1.(packetIdentifier := id), remaining, n + |s| - |s2|, offset, s2, more);
      } else {
        RestExtends(p1, remaining, n + |s| - |s1|, offset, s1, more);
      }
  }

  lemma PublishExtends(p: Publish.PublishData, h: Head, s: Str, more: Str)
    ensures Extends(Publish.ReadPublish(p, h, s), Publish.ReadPublish(p, h, s + more), more)
  {
    hide ReadHead;
    hide Publish.WithFlags;
    hide Publish.ReadVariableHeader;
    if h.first / 16 == 0 {
      HeadExtends(s, more);
      match ReadHead(s)
      case Failed(_) =>
      case Got(own, rest) =>
        VariableHeaderExtends(Publish.WithFlags(p, own.first % 16), own.remaining, |s| - |rest|, 2, rest, more);
    } else {
      VariableHeaderExtends(Publish.WithFlags(p, h.first % 16), h.remaining, 0, 0, s, more);
    }
  }

  // ---------- Acknowledgements and SUBACK ----------

  lemma AckPropertiesExtend(a: Acks.AckData, n: nat, s: Str, more: Str)
    ensures Extends(Acks.ReadAckProperties(a, n, s), Acks.ReadAckProperties(a, n, s + more), more)
  {
    hide ReadVar;
    hide ReadBlock;
    hide Fold;
    VarIntExtends(s, more);
    match ReadVar(s)
    case Failed(_) =>
    case Got(propertiesLen, s1) =>
      BlockExtends(ACK_PROPERTIES, [], n + |s| - |s1|, propertiesLen, |s| - |s1|, s1, more);
  }

  lemma AckExtends(a: Acks.AckData, remaining: uint32, s: Str, more: Str)
    ensures Extends(Acks.ReadAck(a, remaining, s), Acks.ReadAck(a, remaining, s + more), more)
  {
    hide ReadU16;
    hide Acks.ReadAckProperties;
    IntegersExtend(s, more);
    match ReadU16(s)
    case Failed(_) =>
    case Got(id, s1) =>
      if s1 != [] {
        assert (s1 + more)[1..] == s1[1..] + more;
        AckPropertiesExtend(a.(packetIdentifier := id, reasonCode := s1[0]), 3, s1[1..], more);
      }
  }

  lemma ReasonCodesExtend(a: Subscriptions.SubackData, left: int, s: Str, more: Str)
    ensures Extends(Subscriptions.ReadReasonCodes(a, left, s), Subscriptions.ReadReasonCodes(a, left, s + more), more)
  {
    if 0 < left <= |s| {
      assert (s + more)[..left] == s[..left];
      assert (s + more)[left..] == s[left..] + more;
    }
  }

  lemma SubackExtends(a: Subscriptions.SubackData, remaining: uint32, s: Str, more: Str)
    ensures Extends(Subscriptions.ReadSuback(a, remaining, s), Subscriptions.ReadSuback(a, remaining, s + more), more)
  {
    hide ReadU16;
    hide ReadVar;
    hide ReadBlock;
    hide Fold;
    hide Subscriptions.ReadReasonCodes;
    IntegersExtend(s, more);
    match ReadU16(s)
    case Failed(_) =>
    case Got(id, s1) =>
      VarIntExtends(s1, more);
      match ReadVar(s1)
      case Failed(_) =>
      case Got(propertiesLen, s2) =>
        var count := |s1| - |s2|;
        BlockExtends(ACK_PROPERTIES, [], 2 + count, propertiesLen, count, s2, more);
        match ReadBlock(ACK_PROPERTIES, [], 2 + count, propertiesLen, count, s2)
        case Failed(_) =>
        case Got(block, s3) =>
          var a1 := Subscriptions.ApplyAll(a.(packetIdentifier := id), block.properties);
          ReasonCodesExtend(a1, remaining - block.n, s3, more);
  }
}
