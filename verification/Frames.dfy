// The fixed header (mqtt/packets/packet.go) and the shape every packet written by the client shares: a fixed header,
// the bytes before the properties, the length-prefixed properties, and the bytes after them.
module Frames {
  import opened Bits
  import opened Primitives
  import opened Properties

  const PUBLISH: byte := 3
  const SUBSCRIBE: byte := 8
  const UNSUBSCRIBE: byte := 10

  datatype Head = Head(first: byte, remaining: uint32)

  // FixedHeader.ReadFrom
  function ReadHead(s: Str): (r: Parsed<Head>)
    ensures r.Got? ==> |r.rest| < |s|
  {
    if s == [] then Failed(EndOfInput)
    else
      match ReadVar(s[1..])
      case Failed(e) => Failed(e)
      case Got(remaining, rest) => Got(Head(s[0], remaining), rest)
  }

  // Or-ing the two halves of a byte puts them together.
  lemma OrHalves(low: byte, high: byte)
    requires low < 16 && high < 16
    ensures Or32(low, high * 16) == high * 16 + low
  {
    hide BitOr;
    assert Pow2(4) == 16;
    OrDisjoint(low, high * 16, high, 4);
  }

  class FixedHeader {
    var first: byte
    var remaining: uint32

    constructor (first: byte, remaining: uint32)
      ensures this.first == first && this.remaining == remaining
    {
      this.first, this.remaining := first, remaining;
    }

    function Value(): Head
      reads this
    {
      Head(first, remaining)
    }

    function GetType(): byte
      reads this
    {
      first / 16
    }

    function GetFlags(): byte
      reads this
    {
      first % 16
    }

    // The type replaces the upper half of the first byte and leaves the lower half alone.
    method SetType(packetType: byte)
      requires packetType < 16
      modifies this`first
      ensures GetType() == packetType && GetFlags() == old(GetFlags())
    {
      var low := first % 16;
      OrHalves(low, packetType);
      hide Or32;
      first := Or32(low, packetType * 16);
    }

    // The flags replace the lower half of the first byte and leave the upper half alone.
    method SetFlags(flags: byte)
      modifies this`first
      ensures GetFlags() == flags % 16 && GetType() == old(GetType())
    {
      var high: byte := first / 16 * 16;
      OrHalves(flags % 16, first / 16);
      hide Or32;
      first := Or32(flags % 16, high);
    }

    method WriteTo(w: Buffer)
      modifies w
      ensures w.data == old(w.data) + [first] + EncVar(remaining)
    {
      WriteByte(first, w);
      WriteVar(remaining, w);
    }

    method ReadFrom(r: Stream) returns (status: Status)
      modifies this, r
      ensures match ReadHead(old(r.rest))
        case Got(h, rest) => Value() == h && r.rest == rest && status == Read(|old(r.rest)| - |rest|)
        case Failed(e) => status == Status.Error(e)
    {
      var b, byteStatus := ReadByte(r);
      if byteStatus.Error? {
        return byteStatus;
      }
      first := b;
      var v, varStatus := ReadVarInt(r);
      if varStatus.Error? {
        return varStatus;
      }
      remaining := v;
      return Read(1 + varStatus.n);
    }
  }

  // ---------- Frames ----------

  datatype Frame = Frame(first: byte, head: Str, properties: seq<Property>, tail: Str)

  // What is emitted after the fixed header.
  function Body(f: Frame): Str {
    f.head + EncVar(PropertiesLength(f.properties)) + EncProperties(f.properties) + f.tail
  }

  // The Remaining field the writers compute beforehand, in 32-bit arithmetic.
  function Remaining(f: Frame): uint32 {
    var propertiesLen := PropertiesLength(f.properties);
    var variableHeaderLen := Add32(|f.head| % TWO_TO_THE_32, Add32(VarLength(propertiesLen), propertiesLen));
    Add32(variableHeaderLen, |f.tail| % TWO_TO_THE_32)
  }

  function Wire(f: Frame): Str {
    [f.first] + EncVar(Remaining(f)) + Body(f)
  }

  lemma Grouped(before: Str, f: Frame)
    ensures before + [f.first] + EncVar(Remaining(f)) + f.head + EncVar(PropertiesLength(f.properties))
            + EncProperties(f.properties) + f.tail == before + Wire(f)
  {
    hide EncVar;
    hide EncProperties;
    hide Remaining;
    hide PropertiesLength;
  }

  // The Remaining field equals the number of bytes emitted after it exactly when that number fits 32 bits, the
  // property block is short enough for its length field, and a subscription identifier has an encoding.
  lemma RemainingExact(f: Frame)
    ensures Remaining(f) == |Body(f)|
      <==> && |Body(f)| < TWO_TO_THE_32
           && |EncProperties(f.properties)| <= MAX_VARINT
           && (forall p <- f.properties :: Encodable(p))
  {
    hide EncProperties;
    hide PropertiesLength;
    hide EncVar;
    hide VarLength;
    var propertiesLen := PropertiesLength(f.properties);
    PropertiesLengthExact(f.properties);
    EncVarLength(propertiesLen);
    RemainingSum(f);
    VarLengthBound(propertiesLen);
    hide Remaining;
    var emitted, missing := |EncProperties(f.properties)|, Uncounted(f.properties);
    assert |Body(f)| == |f.head| + |EncVar(propertiesLen)| + emitted + |f.tail|;
    if |Body(f)| < TWO_TO_THE_32 {
      assert propertiesLen == emitted - missing;
      assert Remaining(f) == |f.head| + VarLength(propertiesLen) + propertiesLen + |f.tail|;
      assert Remaining(f) == |Body(f)| <==> VarLength(propertiesLen) == |EncVar(propertiesLen)| && missing == 0;
    }
  }

  lemma VarLengthBound(v: uint32)
    ensures VarLength(v) <= 4 && (VarLength(v) == 0 <==> v > MAX_VARINT)
  {
  }

  lemma RemainingSum(f: Frame)
    ensures var propertiesLen := PropertiesLength(f.properties);
      Remaining(f) == (|f.head| + VarLength(propertiesLen) + propertiesLen + |f.tail|) % TWO_TO_THE_32
  {
    hide VarLength;
    hide PropertiesLength;
    var propertiesLen := PropertiesLength(f.properties);
    VarLengthBound(propertiesLen);
    Add32Sum(VarLength(propertiesLen), propertiesLen);
    Add32Sum(|f.head|, VarLength(propertiesLen) + propertiesLen);
    Add32Sum(|f.head| + VarLength(propertiesLen) + propertiesLen, |f.tail|);
  }

  // A frame the protocol can carry.
  ghost predicate InBounds(f: Frame) {
    |Body(f)| <= MAX_VARINT && forall p <- f.properties :: WithinBounds(p)
  }

  lemma InBoundsFrame(f: Frame)
    requires InBounds(f)
    ensures Remaining(f) == |Body(f)|
    ensures PropertiesLength(f.properties) == |EncProperties(f.properties)| <= MAX_VARINT
  {
    hide Remaining;
    hide EncVar;
    hide EncProperties;
    hide PropertiesLength;
    RemainingExact(f);
    PropertiesLengthExact(f.properties);
  }

  // The fixed header of a frame within bounds reads back, and what it leaves is exactly the announced bytes and
  // whatever follows them.
  lemma HeadRoundTrip(f: Frame, rest: Str)
    requires InBounds(f)
    ensures ReadHead(Wire(f) + rest) == Got(Head(f.first, |Body(f)|), Body(f) + rest)
  {
    hide Body;
    hide EncVar;
    hide Remaining;
    hide ReadVar;
    hide PropertiesLength;
    hide EncProperties;
    InBoundsFrame(f);
    hide InBounds;
    var n := Remaining(f);
    VarRoundTrip(n, Body(f) + rest);
    assert (Wire(f) + rest)[1..] == EncVar(n) + (Body(f) + rest);
  }
}
