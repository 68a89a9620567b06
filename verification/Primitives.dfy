// The wire primitives of mqtt/packets/primitives: variable byte integers, two- and four-byte integers and
// length-prefixed strings. Each reader and writer is a method over a byte buffer, proved against a function.
module Primitives {
  import opened Bits

  // A Go string is a sequence of bytes.
  type Str = seq<byte>

  const MAX_VARINT := 268_435_455

  datatype Error = EndOfInput | MalformedVarint | MalformedPacket | UnexpectedPacketType | NotModelled

  // What a reader makes of its input: a value and the bytes it leaves, or an error.
  datatype Parsed<+T> = Got(value: T, rest: Str) | Failed(error: Error)

  // What a reader method reports beside the value it has set: the byte count of the Go code, or an error.
  datatype Status = Read(n: int) | Error(error: Error)

  // The buffer a packet is written to (bytes.Buffer in Client.send).
  class Buffer {
    var data: Str

    constructor ()
      ensures data == []
    {
      data := [];
    }

    method Write(bytes: Str)
      modifies this
      ensures data == old(data) + bytes
    {
      data := data + bytes;
    }
  }

  // The connection a packet is read from: the bytes still to come. Reads are full reads: a read asking for more than
  // is left drains the stream and fails.
  class Stream {
    var rest: Str

    constructor (rest: Str)
      ensures this.rest == rest
    {
      this.rest := rest;
    }

    method Read(k: nat) returns (ok: bool, bytes: Str)
      modifies this
      ensures ok == (k <= |old(rest)|)
      ensures ok ==> bytes == old(rest)[..k] && rest == old(rest)[k..]
      ensures !ok ==> rest == []
    {
      if k <= |rest| {
        ok, bytes := true, rest[..k];
        rest := rest[k..];
      } else {
        ok, bytes := false, [];
        rest := [];
      }
    }
  }

  // ---------- Variable byte integers ----------

  // The base-128 little-endian digits of v, each but the last with its continuation bit set.
  function EncVar(v: nat): (e: Str)
    ensures |e| >= 1
  {
    if v < 128 then [v] else [v % 128 + 128] + EncVar(v / 128)
  }

  // VariableByteInt.Length: 0 stands for a value that has no encoding.
  function VarLength(v: uint32): nat {
    if v < 128 then 1
    else if v < 16_384 then 2
    else if v < 2_097_152 then 3
    else if v <= MAX_VARINT then 4
    else 0
  }

  // VariableByteInt.ReadFrom from a point inside its loop, val and mul being its two variables.
  function ReadVarFrom(s: Str, val: uint32, mul: uint32): (r: Parsed<uint32>)
    ensures r.Got? ==> |r.rest| < |s|
  {
    if s == [] then Failed(EndOfInput)
    else
      var v := Or32(val, Shl32(s[0] % 128, mul));
      if v > MAX_VARINT then Failed(MalformedVarint)
      else if s[0] < 128 then Got(v, s[1..])
      else ReadVarFrom(s[1..], v, Add32(mul, 7))
  }

  function ReadVar(s: Str): (r: Parsed<uint32>)
    ensures r.Got? ==> |r.rest| < |s|
  {
    ReadVarFrom(s, 0, 0)
  }

  // VariableByteInt.WriteTo
  method WriteVar(v: uint32, w: Buffer)
    modifies w
    ensures w.data == old(w.data) + EncVar(v)
  {
    var result: Str := [];
    var tmp := v;
    while true
      invariant w.data == old(w.data)
      invariant result + EncVar(tmp) == EncVar(v)
      decreases tmp
    {
      var b: byte := tmp % 128;
      tmp := tmp / 128;
      if tmp > 0 {
        OrTopBit(b);
        b := Or32(b, 0x80);
      }
      result := result + [b];
      if tmp == 0 {
        assert result == EncVar(v);
        break;
      }
    }
    w.Write(result);
  }

  // VariableByteInt.ReadFrom
  method ReadVarInt(r: Stream) returns (v: uint32, status: Status)
    modifies r
    ensures Agrees(ReadVar(old(r.rest)), old(r.rest), r.rest, v, status)
  {
    v := 0;
    var mul: uint32, val: uint32, n := 0, 0, 0;
    while true
      invariant |r.rest| == |old(r.rest)| - n
      invariant ReadVarFrom(r.rest, val, mul) == ReadVar(old(r.rest))
      decreases |r.rest|
    {
      var ok, b := r.Read(1);
      if !ok {
        return 0, Status.Error(EndOfInput);
      }
      n := n + 1;
      val := Or32(val, Shl32(b[0] % 128, mul));
      if val > MAX_VARINT {
        return 0, Status.Error(MalformedVarint);
      }
      if b[0] < 128 {
        break;
      }
      mul := Add32(mul, 7);
    }
    return val, Read(n);
  }

  lemma OrTopBit(b: byte)
    requires b < 128
    ensures Or32(b, 0x80) == b + 0x80
  {
    hide BitOr;
    Powers();
    OrDisjoint(b, 0x80, 1, 7);
  }

  // After this many bytes the 32-bit shift count of ReadFrom has wrapped around and is below 32 again.
  const WRAP := 613_566_757

  // 128^i for the digits that fit a 32-bit value.
  function Weight(i: nat): nat {
    if i == 0 then 1 else if i == 1 then 128 else if i == 2 then 16_384 else if i == 3 then 2_097_152 else 268_435_456
  }

  // What byte number i of an encoding adds to the value: below the fourth its digit times 128^i; of a fifth byte the
  // lower half, which is out of range unless it is zero; nothing after that.
  function Contribution(b: byte, i: nat): nat {
    if i < 4 then b % 128 * Weight(i) else if i == 4 then b % 16 * Weight(4) else 0
  }

  // ReadVarFrom in plain arithmetic, i bytes into the encoding.
  function ReadDigits(s: Str, val: nat, i: nat): Parsed<uint32> {
    if s == [] then Failed(EndOfInput)
    else
      var v := val + Contribution(s[0], i);
      if v > MAX_VARINT then Failed(MalformedVarint)
      else if s[0] < 128 then Got(v, s[1..])
      else ReadDigits(s[1..], v, i + 1)
  }

  lemma OrIsAdd(val: uint32, d: byte, mul: uint32, y: uint32)
    requires mul <= 28 && y == d * Pow2(mul) && val < Pow2(mul)
    requires val + y < TWO_TO_THE_32
    ensures Or32(val, Shl32(d, mul)) == val + y
  {
    hide BitOr;
    OrDisjoint(val, y, d, mul);
  }

  lemma WeightIsPower(i: nat)
    requires i <= 4
    ensures Pow2(7 * i) == Weight(i)
  {
    Powers();
  }

  lemma OrLowDigit(val: uint32, d: byte, i: nat)
    requires i < 4 && val < Weight(i) && d < 128
    ensures Or32(val, Shl32(d, 7 * i)) == val + d * Weight(i)
  {
    hide Or32;
    hide Shl32;
    WeightIsPower(i);
    OrIsAdd(val, d, 7 * i, d * Weight(i));
  }

  // Of a fifth digit only the lower half survives the shift.
  lemma OrFifthDigit(val: uint32, d: byte)
    requires val <= MAX_VARINT
    ensures Or32(val, Shl32(d, 28)) == val + d % 16 * Weight(4)
  {
    hide Or32;
    WeightIsPower(4);
    assert Shl32(d, 28) == Shl32(d % 16, 28) by {
      assert d * 268_435_456 == d % 16 * 268_435_456 + d / 16 * TWO_TO_THE_32;
    }
    hide Shl32;
    OrIsAdd(val, d % 16, 28, d % 16 * Weight(4));
  }

  lemma OrNothing(val: uint32)
    requires val <= MAX_VARINT
    ensures Or32(val, 0) == val
  {
    hide BitOr;
    WeightIsPower(4);
    OrDisjoint(val, 0, 0, 28);
  }

  lemma LowerHalf(b: byte)
    ensures b % 128 % 16 == b % 16
  {
    assert b % 128 == b - b / 128 * 128;
  }

  lemma OrDigit(val: uint32, b: byte, i: nat)
    requires val <= MAX_VARINT && (i < 4 ==> val < Weight(i))
    ensures Or32(val, Shl32(b % 128, 7 * i)) == val + Contribution(b, i)
  {
    hide Or32;
    hide Pow2;
    hide Weight;
    var d: byte := b % 128;
    if i < 4 {
      hide Shl32;
      OrLowDigit(val, d, i);
    } else if i == 4 {
      hide Shl32;
      OrFifthDigit(val, d);
      LowerHalf(b);
    } else {
      assert Shl32(d, 7 * i) == 0;
      OrNothing(val);
    }
  }

  // The 32-bit shift-and-or loop is base-128 arithmetic, until its shift count wraps around.
  lemma {:induction false} ShiftOrIsArithmetic(s: Str, val: uint32, i: nat)
    requires val <= MAX_VARINT && (i < 4 ==> val < Weight(i))
    requires i + |s| < WRAP
    ensures ReadVarFrom(s, val, 7 * i) == ReadDigits(s, val, i)
  {
    hide Or32;
    hide Shl32;
    if s != [] {
      OrDigit(val, s[0], i);
      var v := val + Contribution(s[0], i);
      if v <= MAX_VARINT && s[0] >= 128 {
        ShiftOrIsArithmetic(s[1..], v, i + 1);
      }
    }
  }

  // The digits of an encoding as a number: the sum of (byte mod 128) * 128^i.
  function Base128(bytes: Str): nat {
    if bytes == [] then 0
    else
      var i := |bytes| - 1;
      Base128(bytes[..i]) + bytes[i] % 128 * Pow2(7 * i)
  }

  // The first four bytes, or all when there are fewer.
  function FirstFour(bytes: Str): Str {
    if |bytes| <= 4 then bytes else bytes[..4]
  }

  // The k-byte prefixes ReadFrom accepts: they end at the first byte without continuation bit, and the lower half of a
  // fifth byte is zero.
  ghost predicate Accepts(s: Str, k: nat) {
    && 1 <= k <= |s|
    && s[k - 1] < 128
    && Continues(s, k - 1)
    && (k >= 5 ==> s[4] % 16 == 0)
  }

  ghost predicate Continues(s: Str, k: nat) {
    k <= |s| && forall i :: 0 <= i < k ==> s[i] >= 128
  }

  // val is the value of the first i bytes, none of which was rejected.
  ghost predicate ReadSoFar(s: Str, i: nat, val: nat) {
    && Continues(s, i)
    && val == Base128(FirstFour(s[..i])) <= MAX_VARINT
    && (i < 4 ==> val < Weight(i))
    && (i >= 5 ==> s[4] % 16 == 0)
  }

  lemma DigitFits(val: nat, d: byte, i: nat)
    requires i < 4 && val < Weight(i) && d < 128
    ensures val + d * Weight(i) < Weight(i + 1)
  {
  }

  lemma NextDigit(s: Str, i: nat, val: nat)
    requires ReadSoFar(s, i, val) && i < |s|
    ensures var v := val + Contribution(s[i], i);
      if i == 4 && s[i] % 16 != 0 then v > MAX_VARINT
      else v == Base128(FirstFour(s[..i + 1])) <= MAX_VARINT && (s[i] >= 128 ==> ReadSoFar(s, i + 1, v))
  {
    if i < 4 {
      assert s[..i + 1][..i] == s[..i];
      WeightIsPower(i);
      hide Pow2;
      assert Base128(s[..i + 1]) == Base128(s[..i]) + s[i] % 128 * Weight(i);
      DigitFits(val, s[i] % 128, i);
    } else {
      hide Base128;
      assert FirstFour(s[..i + 1]) == s[..4] == FirstFour(s[..i]);
    }
  }

  // An accepted prefix, its value and what is left; or no acceptable prefix longer than i.
  ghost predicate Decodes(s: Str, i: nat, r: Parsed<uint32>) {
    match r
    case Got(v, rest) =>
      && |rest| < |s|
      && (var k := |s| - |rest|;
          Accepts(s, k) && rest == s[k..] && v == Base128(FirstFour(s[..k])) <= MAX_VARINT)
    case Failed(_) => forall k :: i < k ==> !Accepts(s, k)
  }

  lemma AcceptedHere(s: Str, i: nat, v: uint32)
    requires i < |s| && s[i] < 128 && Continues(s, i) && (i >= 4 ==> s[4] % 16 == 0)
    requires v == Base128(FirstFour(s[..i + 1])) <= MAX_VARINT
    ensures Decodes(s, i, Got(v, s[i + 1..]))
  {
    hide Base128;
    hide FirstFour;
    assert |s| - |s[i + 1..]| == i + 1;
  }

  // A byte that continues is not the end of an accepted prefix.
  lemma DecodesLater(s: Str, i: nat, r: Parsed<uint32>)
    requires i < |s| && s[i] >= 128 && Decodes(s, i + 1, r)
    ensures Decodes(s, i, r)
  {
    hide Base128;
    hide FirstFour;
    assert !Accepts(s, i + 1);
  }

  lemma {:induction false} ReadDigitsAgrees(s: Str, i: nat, val: nat)
    requires i <= |s| && ReadSoFar(s, i, val)
    ensures Decodes(s, i, ReadDigits(s[i..], val, i))
    decreases |s| - i
  {
    hide Base128;
    hide FirstFour;
    hide Contribution;
    if i < |s| {
      var v := val + Contribution(s[i], i);
      assert s[i..][1..] == s[i + 1..];
      NextDigit(s, i, val);
      hide Accepts;
      if v <= MAX_VARINT {
        if s[i] >= 128 {
          ReadDigitsAgrees(s, i + 1, v);
          DecodesLater(s, i, ReadDigits(s[i + 1..], v, i + 1));
        } else {
          AcceptedHere(s, i, v);
        }
        hide Decodes;
      } else {
        NothingAccepted(s, i);
      }
    }
  }

  lemma NothingAccepted(s: Str, i: nat)
    requires i == 4 && i < |s| && s[4] % 16 != 0
    ensures forall k :: i < k ==> !Accepts(s, k)
  {
  }

  lemma DecodesShort(s: Str)
    requires |s| < WRAP
    ensures Decodes(s, 0, ReadVar(s))
  {
    ShiftOrIsArithmetic(s, 0, 0);
    assert s[0..] == s;
    ReadDigitsAgrees(s, 0, 0);
  }

  // What is read depends on the bytes consumed alone.
  lemma {:induction false} ReadVarLocal(s: Str, val: uint32, mul: uint32)
    requires ReadVarFrom(s, val, mul).Got?
    ensures var r := ReadVarFrom(s, val, mul);
      && r.value <= MAX_VARINT
      && (var k := |s| - |r.rest|; r.rest == s[k..] && ReadVarFrom(s[..k], val, mul) == Got(r.value, []))
  {
    hide Or32;
    hide Shl32;
    var v := Or32(val, Shl32(s[0] % 128, mul));
    var k := |s| - |ReadVarFrom(s, val, mul).rest|;
    if s[0] >= 128 {
      ReadVarLocal(s[1..], v, Add32(mul, 7));
      assert s[..k][1..] == s[1..][..k - 1];
    } else {
      assert s[..k][1..] == [];
    }
  }

  lemma {:induction false} ReadVarExtends(s: Str, more: Str, val: uint32, mul: uint32)
    requires ReadVarFrom(s, val, mul).Got?
    ensures ReadVarFrom(s + more, val, mul).Got?
  {
    hide Or32;
    hide Shl32;
    if s[0] >= 128 {
      assert (s + more)[1..] == s[1..] + more;
      ReadVarExtends(s[1..], more, Or32(val, Shl32(s[0] % 128, mul)), Add32(mul, 7));
    }
  }

  lemma AcceptsPrefix(s: Str, k: nat)
    requires k <= |s|
    ensures Accepts(s[..k], k) <==> Accepts(s, k)
  {
  }

  // Decoding of arbitrary bytes (MQTT 5.0 section 1.5.5), whatever follows them: a value read is within bounds, it is
  // the base-128 value of at most the first four bytes consumed, and these are acceptable; if nothing is read no
  // prefix is acceptable. Encodings so long that the shift count wraps around escape all but the bound.
  lemma ReadVarValue(s: Str)
    ensures match ReadVar(s)
      case Got(v, rest) =>
        && v <= MAX_VARINT && |rest| < |s|
        && (var k := |s| - |rest|;
            rest == s[k..] && (k < WRAP ==> Accepts(s, k) && v == Base128(FirstFour(s[..k]))))
      case Failed(_) => forall k: nat :: k < WRAP ==> !Accepts(s, k)
  {
    hide Base128;
    match ReadVar(s)
    case Got(v, rest) =>
      var k := |s| - |rest|;
      ReadVarLocal(s, 0, 0);
      if k < WRAP {
        DecodesShort(s[..k]);
        assert s[..k][..k] == s[..k];
        AcceptsPrefix(s, k);
      }
    case Failed(_) =>
      forall k: nat | k < WRAP && k <= |s| ensures !Accepts(s, k) {
        AcceptsPrefix(s, k);
        DecodesShort(s[..k]);
        assert s == s[..k] + s[k..];
        if ReadVar(s[..k]).Got? {
          ReadVarExtends(s[..k], s[k..], 0, 0);
        }
      }
  }

  // Length is the length of the encoding, except that a value out of bounds is written as five bytes.
  lemma EncVarLength(v: uint32)
    ensures |EncVar(v)| == if v <= MAX_VARINT then VarLength(v) else 5
  {
    var v1, v2, v3 := v / 128, v / 128 / 128, v / 128 / 128 / 128;
    assert v3 >= 128 ==> |EncVar(v3)| == 2;
    assert v >= 128 ==> |EncVar(v)| == 1 + |EncVar(v1)|;
    assert v1 >= 128 ==> |EncVar(v1)| == 1 + |EncVar(v2)|;
    assert v2 >= 128 ==> |EncVar(v2)| == 1 + |EncVar(v3)|;
  }

  // Every value within bounds reads back, whatever follows its encoding.
  lemma VarRoundTrip(v: uint32, rest: Str)
    requires v <= MAX_VARINT
    ensures ReadVar(EncVar(v) + rest) == Got(v, rest)
  {
    ReadEncoded(v, rest, 0, 0);
  }

  lemma {:induction false} ReadEncoded(v: nat, rest: Str, val: uint32, i: nat)
    requires i < 4 && val < Weight(i) && val + v * Weight(i) <= MAX_VARINT
    ensures ReadVarFrom(EncVar(v) + rest, val, 7 * i) == Got(val + v * Weight(i), rest)
    decreases 4 - i
  {
    hide Or32;
    hide Shl32;
    hide Pow2;
    var e := EncVar(v);
    OrDigit(val, e[0], i);
    if v < 128 {
      assert (e + rest)[1..] == rest;
    } else {
      assert (e + rest)[1..] == EncVar(v / 128) + rest;
      ReadEncoded(v / 128, rest, val + v % 128 * Weight(i), i + 1);
    }
  }

  // No encoding is a proper prefix of another.
  lemma VarPrefixFree(v: uint32, w: uint32)
    requires v <= MAX_VARINT && w <= MAX_VARINT
    requires EncVar(v) <= EncVar(w)
    ensures v == w
  {
    var rest := EncVar(w)[|EncVar(v)|..];
    assert EncVar(w) == EncVar(v) + rest && EncVar(w) == EncVar(w) + [];
    VarRoundTrip(v, rest);
    VarRoundTrip(w, []);
  }

  // The encoding WriteTo produces is the shortest of all inputs that decode to the value.
  lemma VarShortest(s: Str)
    requires ReadVar(s).Got?
    ensures |EncVar(ReadVar(s).value)| <= |s| - |ReadVar(s).rest|
  {
    ReadVarValue(s);
    var v, k := ReadVar(s).value, |s| - |ReadVar(s).rest|;
    EncVarLength(v);
    if k < 4 {
      Base128Bound(s[..k]);
    }
  }

  lemma {:induction false} Base128Bound(bytes: Str)
    requires |bytes| <= 4
    ensures Base128(bytes) < Weight(|bytes|)
  {
    if bytes != [] {
      var i := |bytes| - 1;
      Base128Bound(bytes[..i]);
      Powers();
      assert Pow2(7 * i) == Weight(i);
    }
  }

  // ---------- Two- and four-byte integers, bytes and strings ----------

  function EncU16(v: uint16): (e: Str)
    ensures |e| == 2
  {
    [v / 256, v % 256]
  }

  function U16Of(b: Str): uint16
    requires |b| >= 2
  {
    var hi: int, lo: int := b[0], b[1];
    hi * 256 + lo
  }

  function ReadU16(s: Str): (r: Parsed<uint16>)
    ensures r.Got? ==> |r.rest| < |s|
  {
    if |s| < 2 then Failed(EndOfInput) else Got(U16Of(s), s[2..])
  }

  function EncU32(v: uint32): (e: Str)
    ensures |e| == 4
  {
    [v / 16_777_216, v / 65_536 % 256, v / 256 % 256, v % 256]
  }

  function U32Of(b: Str): uint32
    requires |b| >= 4
  {
    var b0: int, b1: int, b2: int, b3: int := b[0], b[1], b[2], b[3];
    b0 * 16_777_216 + b1 * 65_536 + b2 * 256 + b3
  }

  function ReadU32(s: Str): (r: Parsed<uint32>)
    ensures r.Got? ==> |r.rest| < |s|
  {
    if |s| < 4 then Failed(EndOfInput)
    else Got(U32Of(s), s[4..])
  }

  // PrimitiveString.WriteTo: the length field holds only the low 16 bits of the length.
  function EncStr(v: Str): (e: Str)
    ensures |e| == 2 + |v|
  {
    EncU16(|v| % 0x1_0000) + v
  }

  function ReadStr(s: Str): (r: Parsed<Str>)
    ensures r.Got? ==> |r.rest| < |s|
  {
    match ReadU16(s)
    case Failed(e) => Failed(e)
    case Got(length, rest) => if |rest| < length then Failed(EndOfInput) else Got(rest[..length], rest[length..])
  }

  // PrimitiveString.Length, on 32-bit values
  function StrLength(v: Str, property: bool): uint32 {
    var result := Add32(2, |v| % TWO_TO_THE_32);
    if property then Add32(result, 1) else result
  }

  lemma StrLengthExact(v: Str)
    ensures StrLength(v, false) == (2 + |v|) % TWO_TO_THE_32
    ensures StrLength(v, true) == (3 + |v|) % TWO_TO_THE_32
  {
    Add32Sum(2, |v|);
    Add32Sum(2 + |v|, 1);
  }

  lemma U16RoundTrip(v: uint16, rest: Str)
    ensures ReadU16(EncU16(v) + rest) == Got(v, rest)
  {
    assert (EncU16(v) + rest)[2..] == rest;
  }

  lemma ReadU16Count(s: Str)
    ensures ReadU16(s).Got? ==> |s| - |ReadU16(s).rest| == 2
  {
  }

  lemma BytesOf32(v: uint32)
    ensures v == v / 16_777_216 * 16_777_216 + v / 65_536 % 256 * 65_536 + v / 256 % 256 * 256 + v % 256
  {
    var v1, v2 := v / 256, v / 65_536;
    assert v1 == v2 * 256 + v1 % 256;
    assert v2 == v / 16_777_216 * 256 + v2 % 256;
  }

  lemma U32RoundTrip(v: uint32, rest: Str)
    ensures ReadU32(EncU32(v) + rest) == Got(v, rest)
  {
    BytesOf32(v);
    var e := EncU32(v);
    var b0, b1, b2, b3 := e[0], e[1], e[2], e[3];
    hide EncU32;
    assert (e + rest)[4..] == rest;
    assert (e + rest)[..4] == [b0, b1, b2, b3];
  }

  // A string of at most 65535 bytes reads back, whatever follows it.
  lemma StrRoundTrip(v: Str, rest: Str)
    requires |v| < 0x1_0000
    ensures ReadStr(EncStr(v) + rest) == Got(v, rest)
  {
    var length: uint16 := |v|;
    assert length % 0x1_0000 == length;
    var tail := v + rest;
    assert EncStr(v) + rest == EncU16(length) + tail;
    U16RoundTrip(length, tail);
    assert tail[..length] == v && tail[length..] == rest;
  }

  method WriteByte(b: byte, w: Buffer)
    modifies w
    ensures w.data == old(w.data) + [b]
  {
    w.Write([b]);
  }

  method WriteU16(v: uint16, w: Buffer)
    modifies w
    ensures w.data == old(w.data) + EncU16(v)
  {
    w.Write([v / 256, v % 256]);
  }

  method WriteU32(v: uint32, w: Buffer)
    modifies w
    ensures w.data == old(w.data) + EncU32(v)
  {
    w.Write([v / 16_777_216, v / 65_536 % 256, v / 256 % 256, v % 256]);
  }

  method WriteStr(v: Str, w: Buffer)
    modifies w
    ensures w.data == old(w.data) + EncStr(v)
  {
    WriteU16(|v| % 0x1_0000, w);
    w.Write(v);
  }

  // The WriteToAsProperty methods: an identifier byte, then the value.
  method WriteU16AsProperty(identifier: byte, v: uint16, w: Buffer)
    modifies w
    ensures w.data == old(w.data) + ([identifier] + EncU16(v))
  {
    w.Write([identifier]);
    WriteU16(v, w);
  }

  method WriteU32AsProperty(identifier: byte, v: uint32, w: Buffer)
    modifies w
    ensures w.data == old(w.data) + ([identifier] + EncU32(v))
  {
    w.Write([identifier]);
    WriteU32(v, w);
  }

  method WriteStrAsProperty(identifier: byte, v: Str, w: Buffer)
    modifies w
    ensures w.data == old(w.data) + ([identifier] + EncStr(v))
  {
    hide EncStr;
    w.Write([identifier]);
    WriteStr(v, w);
  }

  method WriteVarAsProperty(identifier: byte, v: uint32, w: Buffer)
    modifies w
    ensures w.data == old(w.data) + ([identifier] + EncVar(v))
  {
    hide EncVar;
    w.Write([identifier]);
    WriteVar(v, w);
  }

  // What a reader method has to do to agree with a reader function.
  ghost predicate Agrees<T>(r: Parsed<T>, before: Str, after: Str, value: T, status: Status) {
    match r
    case Got(v, rest) => value == v && after == rest && status == Read(|before| - |rest|)
    case Failed(e) => status == Status.Error(e)
  }

  method ReadByte(r: Stream) returns (b: byte, status: Status)
    modifies r
    ensures old(r.rest) != [] ==> b == old(r.rest)[0] && r.rest == old(r.rest)[1..] && status == Read(1)
    ensures old(r.rest) == [] ==> status == Status.Error(EndOfInput)
  {
    var ok, bytes := r.Read(1);
    if !ok {
      return 0, Status.Error(EndOfInput);
    }
    return bytes[0], Read(1);
  }

  method ReadUint16(r: Stream) returns (v: uint16, status: Status)
    modifies r
    ensures Agrees(ReadU16(old(r.rest)), old(r.rest), r.rest, v, status)
  {
    var ok, b := r.Read(2);
    if !ok {
      return 0, Status.Error(EndOfInput);
    }
    return U16Of(b), Read(2);
  }

  method ReadUint32(r: Stream) returns (v: uint32, status: Status)
    modifies r
    ensures Agrees(ReadU32(old(r.rest)), old(r.rest), r.rest, v, status)
  {
    var ok, b := r.Read(4);
    if !ok {
      return 0, Status.Error(EndOfInput);
    }
    return U32Of(b), Read(4);
  }

  method ReadString(r: Stream) returns (v: Str, status: Status)
    modifies r
    ensures Agrees(ReadStr(old(r.rest)), old(r.rest), r.rest, v, status)
  {
    var length, lengthStatus := ReadUint16(r);
    if lengthStatus.Error? {
      return [], lengthStatus;
    }
    var ok, bytes := r.Read(length);
    if !ok {
      return [], Status.Error(EndOfInput);
    }
    return bytes, Read(|bytes| + 2);
  }
}
