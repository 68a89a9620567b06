// Property blocks with an identifier the client does not know: the readers read no value for it and count the length of
// the last value read once more (mqtt/packets/publish.go, puback.go, suback.go). Where they stop, and what is lost.
module UnknownProperties {
  import opened Bits
  import opened Primitives
  import opened Properties
  import opened Frames
  import opened Truncation
  import Publish
  import Acks
  import Subscriptions

  // ---------- The loop ----------

  // The length of the last value read behind ps; before that of the length field.
  function Stale(ps: seq<Property>, lengthField: nat): nat {
    if ps == [] then lengthField else |EncBody(ps[|ps| - 1])|
  }

  lemma BodyNonEmpty(p: Property)
    ensures |EncBody(p)| >= 1
  {
  }

  lemma StaleSome(ps: seq<Property>, lengthField: nat)
    requires lengthField >= 1
    ensures Stale(ps, lengthField) >= 1
  {
    if ps != [] {
      BodyNonEmpty(ps[|ps| - 1]);
    }
  }

  lemma EncFirst(ps: seq<Property>)
    requires ps != []
    ensures EncProperties(ps) == [Identifier(ps[0])] + (EncBody(ps[0]) + EncProperties(ps[1..]))
  {
    hide EncBody;
    assert ps == [ps[0]] + ps[1..];
    EncPropertiesAppend([ps[0]], ps[1..]);
    EncPropertiesSnoc([], ps[0]);
    assert [] + [ps[0]] == [ps[0]];
  }

  // One known property.
  lemma OneKnown(known: set<byte>, done: seq<Property>, p: Property, n: int, remaining: int, count: nat, s: Str)
    requires WithinBounds(p) && Identifier(p) in known && remaining > 0
    ensures ReadBlock(known, done, n, remaining, count, [Identifier(p)] + (EncBody(p) + s))
         == ReadBlock(known, done + [p], n + |EncProperty(p)|, remaining - |EncProperty(p)|, |EncBody(p)|, s)
  {
    hide EncBody;
    hide ReadBody;
    hide Identifier;
    var all := [Identifier(p)] + (EncBody(p) + s);
    assert all[1..] == EncBody(p) + s;
    BodyRoundTrip(p, s);
  }

  // Known properties, and then whatever comes.
  lemma {:induction false} KnownFirst(known: set<byte>, done: seq<Property>, ps: seq<Property>, n: int, more: nat,
                                      count: nat, s: Str)
    requires AllReadable(known, ps)
    ensures ReadBlock(known, done, n, |EncProperties(ps)| + more, count, EncProperties(ps) + s)
         == ReadBlock(known, done + ps, n + |EncProperties(ps)|, more, Stale(ps, count), s)
    decreases |ps|
  {
    hide EncBody;
    hide ReadBlock;
    hide Identifier;
    hide WithinBounds;
    if ps == [] {
      NoUserProperties(map[]);
      assert done + ps == done && EncProperties(ps) + s == s;
    } else {
      var p, tail := ps[0], ps[1..];
      EncFirst(ps);
      var after := EncProperties(tail) + s;
      assert EncProperties(ps) + s == [Identifier(p)] + (EncBody(p) + after);
      OneKnown(known, done, p, n, |EncProperties(ps)| + more, count, after);
      KnownFirst(known, done + [p], tail, n + |EncProperty(p)|, more, |EncBody(p)|, s);
      assert done + [p] + tail == done + ps;
    }
  }

  // The turns the loop makes over bytes that are no known identifiers.
  function Turns(remaining: int, count: nat): nat {
    if remaining <= 0 then 0 else 1 + Turns(remaining - 1 - count, count)
  }

  lemma {:induction false} TurnsBound(remaining: int, count: nat)
    ensures Turns(remaining, count) * (1 + count) >= remaining
    ensures remaining > 0 ==> (Turns(remaining, count) - 1) * (1 + count) < remaining
    ensures remaining >= 0 ==> Turns(remaining, count) <= remaining
    decreases if remaining > 0 then remaining else 0
  {
    if remaining > 0 {
      TurnsBound(remaining - 1 - count, count);
    }
  }

  lemma {:induction false} UnknownRun(known: set<byte>, done: seq<Property>, n: int, remaining: int, count: nat, s: Str)
    requires var k := Turns(remaining, count);
      k <= |s| && forall i :: 0 <= i < k ==> s[i] !in known
    ensures var k := Turns(remaining, count);
      ReadBlock(known, done, n, remaining, count, s) == Got(Block(done, n + k * (1 + count)), s[k..])
    decreases if remaining > 0 then remaining else 0
  {
    if remaining > 0 {
      var k := Turns(remaining, count);
      assert forall i :: 0 <= i < k - 1 ==> s[1..][i] == s[i + 1];
      UnknownRun(known, done, n + 1 + count, remaining - 1 - count, count, s[1..]);
      assert s[1..][k - 1..] == s[k..];
      assert n + 1 + count + (k - 1) * (1 + count) == n + k * (1 + count);
    }
  }

  // The turns over the bytes behind an unknown identifier, when tail is what the block announces behind it.
  function Skipped(tail: Str, count: nat): nat {
    Turns(|tail| - count, count)
  }

  // The bytes the loop counts too many from the unknown identifier on.
  function TooMany(tail: Str, count: nat): nat {
    (1 + Skipped(tail, count)) * count
  }

  lemma SkippedBound(tail: Str, count: nat)
    requires count >= 1
    ensures Skipped(tail, count) <= |tail| && (Skipped(tail, count) == |tail| ==> tail == [])
    ensures |tail| <= count ==> Skipped(tail, count) == 0
  {
    TurnsBound(|tail| - count, count);
  }

  // None of the bytes the loop takes for identifiers is a known one.
  predicate Foreign(known: set<byte>, tail: Str, count: nat) {
    Skipped(tail, count) <= |tail| && forall i :: 0 <= i < Skipped(tail, count) ==> tail[i] !in known
  }

  // One unknown identifier.
  lemma OneUnknown(known: set<byte>, done: seq<Property>, u: byte, n: int, remaining: int, count: nat, s: Str)
    requires u !in known && remaining > 0
    ensures ReadBlock(known, done, n, remaining, count, [u] + s)
         == ReadBlock(known, done, n + 1 + count, remaining - 1 - count, count, s)
  {
    assert ([u] + s)[1..] == s;
  }

  // Known properties and one unknown identifier.
  lemma UpToUnknown(known: set<byte>, ps: seq<Property>, u: byte, tail: Str, n: int, lengthField: nat, s: Str)
    requires AllReadable(known, ps) && u !in known
    ensures var c, m := Stale(ps, lengthField), n + |EncProperties(ps)| + 1;
      ReadBlock(known, [], n, |EncProperties(ps)| + 1 + |tail|, lengthField, EncProperties(ps) + [u] + tail + s)
      == ReadBlock(known, ps, m + c, |tail| - c, c, tail + s)
  {
    hide EncProperties;
    hide Stale;
    hide AllReadable;
    hide ReadBlock;
    KnownFirst(known, [], ps, n, 1 + |tail|, lengthField, [u] + (tail + s));
    assert EncProperties(ps) + [u] + tail + s == EncProperties(ps) + ([u] + (tail + s));
    assert [] + ps == ps;
    OneUnknown(known, ps, u, n + |EncProperties(ps)|, 1 + |tail|, Stale(ps, lengthField), tail + s);
  }

  lemma Counted(m: int, k: int, c: int)
    ensures m + 1 + c + k * (1 + c) == m + 1 + k + (1 + k) * c
  {
  }

  // Known properties, an unknown identifier, and the rest of the block: the loop stops Skipped bytes into that rest,
  // and has counted TooMany bytes too many.
  lemma UnknownBlock(known: set<byte>, ps: seq<Property>, u: byte, tail: Str, n: int, lengthField: nat, rest: Str)
    requires AllReadable(known, ps) && u !in known && lengthField >= 1
    requires Foreign(known, tail, Stale(ps, lengthField))
    ensures var c := Stale(ps, lengthField);
      var k, len := Skipped(tail, c), |EncProperties(ps)| + 1 + |tail|;
      ReadBlock(known, [], n, len, lengthField, EncProperties(ps) + [u] + tail + rest)
      == Got(Block(ps, n + |EncProperties(ps)| + 1 + k + TooMany(tail, c)), tail[k..] + rest)
  {
    hide EncProperties;
    hide Stale;
    hide AllReadable;
    hide ReadBlock;
    hide Turns;
    var c := Stale(ps, lengthField);
    var k, m, s := Skipped(tail, c), n + |EncProperties(ps)|, tail + rest;
    UpToUnknown(known, ps, u, tail, n, lengthField, rest);
    UnknownRun(known, ps, m + 1 + c, |tail| - c, c, s);
    assert s[k..] == tail[k..] + rest;
    Counted(m, k, c);
  }

  // ---------- PUBLISH ----------

  // p with the bytes of its property block given.
  function PublishBody(p: Publish.PublishData, block: Str): Str {
    Publish.PublishHead(p) + EncVar(|block|) + block + p.payload
  }

  ghost predicate Fits(p: Publish.PublishData, block: Str) {
    p.qos < 4 && |p.topic| < 0x1_0000 && |PublishBody(p, block)| <= MAX_VARINT
  }

  function ReadBack(p: Publish.PublishData, block: Str, rest: Str): Parsed<Publish.PublishData>
    requires |PublishBody(p, block)| <= MAX_VARINT
  {
    Publish.ReadPublish(Publish.UNSET, Head(0x30 + Publish.FlagBits(p) % 16, |PublishBody(p, block)|),
                        PublishBody(p, block) + rest)
  }

  // Where the properties begin, by the reader's count, and the length of their length field.
  function Start(p: Publish.PublishData, block: Str): nat {
    |Publish.PublishHead(p)| + |EncVar(|block|)|
  }

  lemma ReadsBlock(p: Publish.PublishData, block: Str, rest: Str)
    requires Fits(p, block) && block != []
    ensures ReadBack(p, block, rest) ==
      match ReadBlock(PUBLISH_PROPERTIES, [], Start(p, block), |block|, |EncVar(|block|)|, block + (p.payload + rest))
      case Failed(e) => Failed(e)
      case Got(b, s) =>
        Publish.ReadPayload(Publish.ApplyAll(Publish.Opened(p), b.properties), |PublishBody(p, block)| - b.n, s)
  {
    hide EncVar;
    hide ReadVar;
    hide Publish.PublishHead;
    hide Publish.FlagBits;
    hide Publish.WithFlags;
    hide Publish.ReadVariableHeader;
    hide Publish.ReadPayload;
    hide ReadBlock;
    hide Fold;
    var body, after := PublishBody(p, block), EncVar(|block|) + block + p.payload + rest;
    Publish.FlagsRoundTrip(p, Publish.UNSET);
    assert body + rest == Publish.PublishHead(p) + after;
    Publish.ReadsHead(p, |body|, 0, 0, after);
    VarRoundTrip(|block|, block + (p.payload + rest));
    assert after == EncVar(|block|) + (block + (p.payload + rest));
  }

  // What becomes of the packet when left is what the property loop leaves of it, and the loop has counted over bytes
  // too many: the last of these bytes stay on the connection.
  function Cut(q: Publish.PublishData, left: Str, over: nat, rest: Str): Parsed<Publish.PublishData> {
    if |left| <= over then Got(q, left + rest)
    else Got(q.(payload := left[..|left| - over]), left[|left| - over..] + rest)
  }

  lemma PayloadCut(q: Publish.PublishData, left: Str, over: nat, rest: Str)
    ensures Publish.ReadPayload(q, |left| - over, left + rest) == Cut(q, left, over, rest)
  {
    if |left| > over {
      var n := |left| - over;
      assert (left + rest)[..n] == left[..n];
      assert (left + rest)[n..] == left[n..] + rest;
    }
  }

  // A packet is whole again only if nothing is left and nothing has been counted too much.
  lemma CutWhole(q: Publish.PublishData, payload: Str, left: Str, over: nat, rest: Str)
    requires over > 0 && q.payload == []
    ensures Cut(q, left, over, rest) == Got(q.(payload := payload), rest) <==> left == [] && payload == []
  {
    if left != [] && |left| <= over {
      assert |left + rest| > |rest|;
    } else if |left| > over {
      assert |left[|left| - over..] + rest| > |rest|;
    } else {
      assert left + rest == rest;
    }
  }

  // The rest of the packet, when the loop has read properties done, left bytes of the packet behind and counted over
  // too many.
  lemma BlockCut(p: Publish.PublishData, block: Str, done: seq<Property>, left: Str, over: nat, rest: Str)
    requires Fits(p, block) && block != [] && |left| <= |block|
    requires ReadBlock(PUBLISH_PROPERTIES, [], Start(p, block), |block|, |EncVar(|block|)|, block + (p.payload + rest))
      == Got(Block(done, Start(p, block) + |block| - |left| + over), left + (p.payload + rest))
    ensures ReadBack(p, block, rest) == Cut(Publish.ApplyAll(Publish.Opened(p), done), left + p.payload, over, rest)
  {
    hide EncVar;
    hide Publish.PublishHead;
    hide ReadBlock;
    hide ReadBack;
    hide Fold;
    hide Publish.ReadPayload;
    hide Cut;
    ReadsBlock(p, block, rest);
    assert left + (p.payload + rest) == left + p.payload + rest;
    PayloadCut(Publish.ApplyAll(Publish.Opened(p), done), left + p.payload, over, rest);
  }

  // The property block with an identifier u the reader does not know.
  function UnknownIn(ps: seq<Property>, u: byte, tail: Str): Str {
    EncProperties(ps) + [u] + tail
  }

  // The value the loop counts for u.
  function Counts(ps: seq<Property>, u: byte, tail: Str): nat {
    Stale(ps, |EncVar(|UnknownIn(ps, u, tail)|)|)
  }

  // PUBLISH with a property the client does not know, tail being its value and what follows it in the block: the loop
  // stops Skipped bytes into the tail; what is left of the packet, without as many bytes at its end as have been
  // counted too much, becomes the payload, and these bytes stay on the connection.
  lemma UnknownPublish(p: Publish.PublishData, ps: seq<Property>, u: byte, tail: Str, rest: Str)
    requires Fits(p, UnknownIn(ps, u, tail)) && AllReadable(PUBLISH_PROPERTIES, ps) && u !in PUBLISH_PROPERTIES
    requires Foreign(PUBLISH_PROPERTIES, tail, Counts(ps, u, tail))
    ensures var c := Counts(ps, u, tail);
      var k, q := Skipped(tail, c), Publish.ApplyAll(Publish.Opened(p), ps);
      ReadBack(p, UnknownIn(ps, u, tail), rest) == Cut(q, tail[k..] + p.payload, TooMany(tail, c), rest)
  {
    hide EncVar;
    hide EncProperties;
    hide Publish.PublishHead;
    hide ReadBlock;
    hide ReadBack;
    hide Fold;
    hide AllReadable;
    hide Turns;
    hide Stale;
    var block := UnknownIn(ps, u, tail);
    var c := Counts(ps, u, tail);
    var k, more := Skipped(tail, c), p.payload + rest;
    UnknownBlock(PUBLISH_PROPERTIES, ps, u, tail, Start(p, block), |EncVar(|block|)|, more);
    assert block + more == EncProperties(ps) + [u] + tail + more;
    hide TooMany;
    BlockCut(p, block, ps, tail[k..], TooMany(tail, c), rest);
  }

  lemma SomethingCounted(tail: Str, c: nat)
    requires c >= 1
    ensures TooMany(tail, c) > 0
  {
  }

  // Such a packet is read back whole if and only if there is neither a value nor a payload.
  lemma UnknownWhole(p: Publish.PublishData, ps: seq<Property>, u: byte, tail: Str, rest: Str)
    requires Fits(p, UnknownIn(ps, u, tail)) && AllReadable(PUBLISH_PROPERTIES, ps) && u !in PUBLISH_PROPERTIES
    requires Foreign(PUBLISH_PROPERTIES, tail, Counts(ps, u, tail))
    ensures ReadBack(p, UnknownIn(ps, u, tail), rest)
      == Got(Publish.ApplyAll(Publish.Opened(p), ps).(payload := p.payload), rest)
      <==> tail == [] && p.payload == []
  {
    hide ReadBack;
    hide Fold;
    hide AllReadable;
    hide Turns;
    hide Foreign;
    hide Fits;
    hide Cut;
    hide EncVar;
    hide EncProperties;
    var c := Counts(ps, u, tail);
    var k, q := Skipped(tail, c), Publish.ApplyAll(Publish.Opened(p), ps);
    UnknownPublish(p, ps, u, tail, rest);
    StaleSome(ps, |EncVar(|UnknownIn(ps, u, tail)|)|);
    SkippedBound(tail, c);
    Publish.PayloadUnset(Publish.Opened(p), ps);
    SomethingCounted(tail, c);
    hide TooMany;
    hide Counts;
    hide Skipped;
    CutWhole(q, p.payload, tail[k..] + p.payload, TooMany(tail, c), rest);
    assert tail[k..] + p.payload == [] <==> k == |tail| && p.payload == [];
  }

  // The loop never counts fewer bytes than it consumes.
  lemma {:induction false} CountsEnough(known: set<byte>, done: seq<Property>, n: int, remaining: int, count: nat,
                                        s: Str)
    ensures var r := ReadBlock(known, done, n, remaining, count, s);
      r.Got? ==> r.value.n - n >= |s| - |r.rest|
    decreases if remaining > 0 then remaining else 0
  {
    hide ReadBody;
    if remaining > 0 && s != [] {
      if s[0] in known {
        match ReadBody(s[0], s[1..])
        case Failed(_) =>
        case Got(p, rest) =>
          var c := |s| - 1 - |rest|;
          CountsEnough(known, done + [p], n + 1 + c, remaining - 1 - c, c, rest);
      } else {
        CountsEnough(known, done, n + 1 + count, remaining - 1 - count, count, s[1..]);
      }
    }
  }

  // Whatever follows the unknown identifier: a payload never comes through together with all that follows the packet,
  // and as much as is counted for the identifier stays on the connection behind whatever payload there is.
  lemma PayloadLost(p: Publish.PublishData, ps: seq<Property>, u: byte, tail: Str, rest: Str)
    requires Fits(p, UnknownIn(ps, u, tail)) && AllReadable(PUBLISH_PROPERTIES, ps) && u !in PUBLISH_PROPERTIES
    ensures match ReadBack(p, UnknownIn(ps, u, tail), rest)
      case Failed(_) => true
      case Got(r, left) => r.payload == [] || |left| >= |rest| + Counts(ps, u, tail)
  {
    hide EncVar;
    hide EncProperties;
    hide Publish.PublishHead;
    hide ReadBlock;
    hide ReadBack;
    hide Fold;
    hide AllReadable;
    hide Stale;
    var block, len := UnknownIn(ps, u, tail), |EncVar(|UnknownIn(ps, u, tail)|)|;
    var c, m, more := Counts(ps, u, tail), Start(p, block) + |EncProperties(ps)|, p.payload + rest;
    ReadsBlock(p, block, rest);
    UpToUnknown(PUBLISH_PROPERTIES, ps, u, tail, Start(p, block), len, more);
    CountsEnough(PUBLISH_PROPERTIES, ps, m + 1 + c, |tail| - c, c, tail + more);
    var r := ReadBlock(PUBLISH_PROPERTIES, ps, m + 1 + c, |tail| - c, c, tail + more);
    if r.Got? {
      Publish.PayloadUnset(Publish.Opened(p), r.value.properties);
    }
  }

  // ---------- The Payload Format Indicator ----------

  lemma Stops(known: set<byte>, done: seq<Property>, n: int, remaining: int, count: nat, s: Str)
    requires remaining <= 0
    ensures ReadBlock(known, done, n, remaining, count, s) == Got(Block(done, n), s)
  {
  }

  // The fewest of the properties that take need bytes.
  function Reach(qs: seq<Property>, need: int): (j: nat)
    ensures j <= |qs|
  {
    if need <= 0 || qs == [] then 0 else 1 + Reach(qs[1..], need - |EncProperty(qs[0])|)
  }

  lemma {:induction false} PartialKnown(known: set<byte>, done: seq<Property>, qs: seq<Property>, n: int, need: int,
                                        count: nat, s: Str)
    requires AllReadable(known, qs) && need <= |EncProperties(qs)|
    ensures var j := Reach(qs, need);
      ReadBlock(known, done, n, need, count, EncProperties(qs) + s)
      == Got(Block(done + qs[..j], n + |EncProperties(qs)| - |EncProperties(qs[j..])|), EncProperties(qs[j..]) + s)
    decreases |qs|
  {
    hide EncBody;
    hide EncProperties;
    hide ReadBlock;
    NoUserProperties(map[]);
    if need <= 0 || qs == [] {
      assert done + qs[..0] == done && qs[0..] == qs;
      Stops(known, done, n, need, count, EncProperties(qs) + s);
    } else {
      var p, tail, j := qs[0], qs[1..], Reach(qs, need);
      EncFirst(qs);
      var after := EncProperties(tail) + s;
      assert EncProperties(qs) + s == [Identifier(p)] + (EncBody(p) + after);
      assert p in qs;
      OneKnown(known, done, p, n, need, count, after);
      hide Identifier;
      hide WithinBounds;
      PartialKnown(known, done + [p], tail, n + |EncProperty(p)|, need - |EncProperty(p)|, |EncBody(p)|, s);
      assert done + [p] + tail[..j - 1] == done + qs[..j];
      assert tail[j - 1..] == qs[j..];
    }
  }

  // All of them are needed exactly if the last one is longer than what may be missing.
  lemma {:induction false} ReachesLast(qs: seq<Property>, spare: nat)
    requires qs != [] && |EncProperties(qs)| > spare
    ensures Reach(qs, |EncProperties(qs)| - spare) == |qs| <==> |EncProperty(qs[|qs| - 1])| > spare
    decreases |qs|
  {
    hide EncBody;
    EncFirst(qs);
    if |qs| == 1 {
      NoUserProperties(map[]);
      assert qs[1..] == [];
    } else {
      var tail := qs[1..];
      LastFits(tail);
      if |EncProperties(tail)| > spare {
        ReachesLast(tail, spare);
      }
    }
  }

  lemma LastFits(qs: seq<Property>)
    requires qs != []
    ensures |EncProperties(qs)| >= |EncProperty(qs[|qs| - 1])|
  {
  }

  // The value of the indicator is a byte that is no known identifier: section 3.3.2.3.2 of MQTT 5.0 allows 0 and 1.
  const FORMAT_INDICATOR: byte := 0x01

  // The property block with the indicator behind the properties ps and in front of qs.
  function Indicated(ps: seq<Property>, b: byte, qs: seq<Property>): Str {
    UnknownIn(ps, FORMAT_INDICATOR, [b] + EncProperties(qs))
  }

  function IndicatorCounts(ps: seq<Property>, b: byte, qs: seq<Property>): nat {
    Counts(ps, FORMAT_INDICATOR, [b] + EncProperties(qs))
  }

  // What the loop makes of the block: it stops at the value of the indicator ...
  lemma StopsAtValue(ps: seq<Property>, b: byte, qs: seq<Property>, n: int, lengthField: nat, s: Str)
    requires AllReadable(PUBLISH_PROPERTIES, ps) && 1 + |EncProperties(qs)| <= Stale(ps, lengthField)
    ensures var c, block := Stale(ps, lengthField), Indicated(ps, b, qs);
      ReadBlock(PUBLISH_PROPERTIES, [], n, |block|, lengthField, block + s)
      == Got(Block(ps, n + |block| - 1 - |EncProperties(qs)| + c), [b] + EncProperties(qs) + s)
  {
    hide EncProperties;
    hide AllReadable;
    hide Stale;
    hide ReadBlock;
    var c, m, tail := Stale(ps, lengthField), n + |EncProperties(ps)|, [b] + EncProperties(qs);
    UpToUnknown(PUBLISH_PROPERTIES, ps, FORMAT_INDICATOR, tail, n, lengthField, s);
    Stops(PUBLISH_PROPERTIES, ps, m + 1 + c, |tail| - c, c, tail + s);
  }

  // ... or takes this for another identifier and reads only as many of the properties behind it as the count leaves.
  lemma GoesOn(ps: seq<Property>, b: byte, qs: seq<Property>, n: int, lengthField: nat, s: Str)
    requires AllReadable(PUBLISH_PROPERTIES, ps) && AllReadable(PUBLISH_PROPERTIES, qs) && b !in PUBLISH_PROPERTIES
    requires 1 + |EncProperties(qs)| > Stale(ps, lengthField)
    ensures var c, block := Stale(ps, lengthField), Indicated(ps, b, qs);
      var j := Reach(qs, |EncProperties(qs)| - 2 * c);
      ReadBlock(PUBLISH_PROPERTIES, [], n, |block|, lengthField, block + s)
      == Got(Block(ps + qs[..j], n + |block| - |EncProperties(qs[j..])| + 2 * c), EncProperties(qs[j..]) + s)
  {
    hide EncProperties;
    hide AllReadable;
    hide Stale;
    hide ReadBlock;
    hide Reach;
    var c, m, tail := Stale(ps, lengthField), n + |EncProperties(ps)|, [b] + EncProperties(qs);
    UpToUnknown(PUBLISH_PROPERTIES, ps, FORMAT_INDICATOR, tail, n, lengthField, s);
    assert tail + s == [b] + (EncProperties(qs) + s);
    OneUnknown(PUBLISH_PROPERTIES, ps, b, m + 1 + c, |tail| - c, c, EncProperties(qs) + s);
    PartialKnown(PUBLISH_PROPERTIES, ps, qs, m + 2 + 2 * c, |EncProperties(qs)| - 2 * c, c, s);
  }

  // PUBLISH with a Payload Format Indicator anywhere among its properties.
  lemma FormatIndicator(p: Publish.PublishData, ps: seq<Property>, b: byte, qs: seq<Property>, rest: Str)
    requires Fits(p, Indicated(ps, b, qs)) && b !in PUBLISH_PROPERTIES
    requires AllReadable(PUBLISH_PROPERTIES, ps) && AllReadable(PUBLISH_PROPERTIES, qs)
    ensures var c, r := IndicatorCounts(ps, b, qs), Publish.Opened(p);
      var j := Reach(qs, |EncProperties(qs)| - 2 * c);
      ReadBack(p, Indicated(ps, b, qs), rest)
      == if 1 + |EncProperties(qs)| <= c
         then Cut(Publish.ApplyAll(r, ps), [b] + EncProperties(qs) + p.payload, c, rest)
         else Cut(Publish.ApplyAll(r, ps + qs[..j]), EncProperties(qs[j..]) + p.payload, 2 * c, rest)
  {
    hide EncVar;
    hide EncProperties;
    hide ReadBlock;
    hide ReadBack;
    hide Fold;
    hide AllReadable;
    hide Stale;
    hide Cut;
    hide Fits;
    hide Reach;
    hide Start;
    var block, c, more := Indicated(ps, b, qs), IndicatorCounts(ps, b, qs), p.payload + rest;
    if 1 + |EncProperties(qs)| <= c {
      StopsAtValue(ps, b, qs, Start(p, block), |EncVar(|block|)|, more);
      BlockCut(p, block, ps, [b] + EncProperties(qs), c, rest);
    } else {
      var j := Reach(qs, |EncProperties(qs)| - 2 * c);
      EncSplit(qs, j);
      GoesOn(ps, b, qs, Start(p, block), |EncVar(|block|)|, more);
      BlockCut(p, block, ps + qs[..j], EncProperties(qs[j..]), 2 * c, rest);
    }
  }

  lemma EncSplit(qs: seq<Property>, j: nat)
    requires j <= |qs|
    ensures EncProperties(qs) == EncProperties(qs[..j]) + EncProperties(qs[j..])
  {
    hide EncProperties;
    hide TotalLength;
    EncPropertiesAppend(qs[..j], qs[j..]);
    assert qs[..j] + qs[j..] == qs;
  }

  // Such a PUBLISH is read back whole if and only if it has no payload, and the indicator is not the last property but
  // one longer than twice what is counted for it is.
  lemma FormatIndicatorWhole(p: Publish.PublishData, ps: seq<Property>, b: byte, qs: seq<Property>, rest: Str)
    requires Fits(p, Indicated(ps, b, qs)) && b !in PUBLISH_PROPERTIES
    requires AllReadable(PUBLISH_PROPERTIES, ps) && AllReadable(PUBLISH_PROPERTIES, qs)
    ensures ReadBack(p, Indicated(ps, b, qs), rest)
      == Got(Publish.ApplyAll(Publish.Opened(p), ps + qs).(payload := p.payload), rest)
      <==> p.payload == [] && qs != [] && |EncProperty(qs[|qs| - 1])| > 2 * IndicatorCounts(ps, b, qs)
  {
    hide EncProperty;
    hide EncProperties;
    hide ReadBack;
    hide Fold;
    hide AllReadable;
    hide Stale;
    hide Cut;
    hide Fits;
    var c, r := IndicatorCounts(ps, b, qs), Publish.Opened(p);
    var j := Reach(qs, |EncProperties(qs)| - 2 * c);
    FormatIndicator(p, ps, b, qs, rest);
    StaleSome(ps, |EncVar(|Indicated(ps, b, qs)|)|);
    var all := Publish.ApplyAll(r, ps + qs).(payload := p.payload);
    if 1 + |EncProperties(qs)| <= c {
      CutOpen(Publish.ApplyAll(r, ps), [b] + EncProperties(qs) + p.payload, c, rest, all);
      if qs != [] {
        LastFits(qs);
      }
    } else {
      var left := EncProperties(qs[j..]) + p.payload;
      LastReached(qs, 2 * c);
      Publish.PayloadUnset(r, ps + qs[..j]);
      if left != [] {
        CutOpen(Publish.ApplyAll(r, ps + qs[..j]), left, 2 * c, rest, all);
      } else {
        assert EncProperties(qs[j..]) == [];
        assert ps + qs[..j] == ps + qs;
        CutWhole(Publish.ApplyAll(r, ps + qs), p.payload, left, 2 * c, rest);
      }
    }
  }

  // What is left of the packet stays left.
  lemma CutOpen(q: Publish.PublishData, left: Str, over: nat, rest: Str, r: Publish.PublishData)
    requires over > 0 && left != []
    ensures Cut(q, left, over, rest) != Got(r, rest)
  {
    if |left| <= over {
      assert |left + rest| > |rest|;
    } else {
      assert |left[|left| - over..] + rest| > |rest|;
    }
  }

  lemma LastReached(qs: seq<Property>, spare: nat)
    ensures var j := Reach(qs, |EncProperties(qs)| - spare);
      && (EncProperties(qs[j..]) == [] <==> qs == [] || |EncProperty(qs[|qs| - 1])| > spare)
      && (EncProperties(qs[j..]) == [] <==> j == |qs|)
  {
    var j := Reach(qs, |EncProperties(qs)| - spare);
    NoUserProperties(map[]);
    EncPropertiesNonEmpty(qs[j..]);
    if qs != [] {
      LastFits(qs);
      if |EncProperties(qs)| > spare {
        ReachesLast(qs, spare);
      }
    }
  }

  lemma NoFlags(p: Publish.PublishData)
    requires p.qos == 0 && !p.retain && !p.duplicate
    ensures Publish.FlagBits(p) == 0
  {
  }

  lemma ShortVar(n: nat)
    requires n < 128
    ensures EncVar(n) == [n]
  {
  }

  // A payload "hi" behind the topic "a" and an indicator: the client takes the value of the indicator and "h" for the
  // payload, and "i" for the beginning of the next packet.
  lemma IndicatorInPayload(rest: Str)
    ensures Publish.ReadPublish(Publish.UNSET, Head(0x30, 8), [0x00, 0x01, 0x61, 0x02, 0x01, 0x01, 0x68, 0x69] + rest)
         == Got(Publish.UNSET.(topic := [0x61], payload := [0x01, 0x68]), [0x69] + rest)
  {
    hide Publish.ReadPublish;
    hide Publish.FlagBits;
    hide EncVar;
    hide EncProperties;
    hide Fold;
    hide Reach;
    var p, r := Publish.UNSET.(topic := [0x61], payload := [0x68, 0x69]), Publish.UNSET.(topic := [0x61]);
    NoUserProperties(map[]);
    NoFlags(p);
    ShortVar(2);
    assert Indicated([], 0x01, []) == [0x01, 0x01];
    assert PublishBody(p, [0x01, 0x01]) == [0x00, 0x01, 0x61, 0x02, 0x01, 0x01, 0x68, 0x69];
    FormatIndicator(p, [], 0x01, [], rest);
    assert Publish.ApplyAll(r, []) == r by { FoldSnoc(Publish.Apply, r, [], TopicAlias(0)); }
    assert IndicatorCounts([], 0x01, []) == 1;
    var left := [0x01] + EncProperties([]) + p.payload;
    assert left == [0x01, 0x68, 0x69] && left[..2] == [0x01, 0x68] && left[2..] == [0x69];
    assert Publish.Opened(p) == r;
    assert ReadBack(p, [0x01, 0x01], rest) == Got(r.(payload := [0x01, 0x68]), [0x69] + rest);
  }

  // ---------- Acknowledgements and SUBACK ----------

  // An acknowledgement with an unknown property: the rest of its block stays on the connection.
  lemma UnknownAck(id: uint16, code: byte, ps: seq<Property>, u: byte, tail: Str, rest: Str)
    requires AllReadable(ACK_PROPERTIES, ps) && u !in ACK_PROPERTIES
    requires Foreign(ACK_PROPERTIES, tail, Counts(ps, u, tail)) && |UnknownIn(ps, u, tail)| <= MAX_VARINT - 7
    ensures var block := UnknownIn(ps, u, tail);
      var body := EncU16(id) + [code] + EncVar(|block|) + block;
      |body| <= MAX_VARINT &&
      Acks.ReadAck(Acks.UNSET, |body|, body + rest)
      == Got(Acks.ApplyAll(Acks.UNSET.(packetIdentifier := id, reasonCode := code), ps),
             tail[Skipped(tail, Counts(ps, u, tail))..] + rest)
  {
    hide EncVar;
    hide ReadVar;
    hide EncU16;
    hide ReadU16;
    hide EncProperties;
    hide ReadBlock;
    hide Fold;
    hide AllReadable;
    hide Turns;
    hide Stale;
    var block := UnknownIn(ps, u, tail);
    var count := |EncVar(|block|)|;
    var after := [code] + (EncVar(|block|) + (block + rest));
    EncVarLength(|block|);
    U16RoundTrip(id, after);
    assert EncU16(id) + [code] + EncVar(|block|) + block + rest == EncU16(id) + after;
    assert after[1..] == EncVar(|block|) + (block + rest);
    VarRoundTrip(|block|, block + rest);
    UnknownBlock(ACK_PROPERTIES, ps, u, tail, 3 + count, count, rest);
  }

  function SubackBody(id: uint16, block: Str, codes: Str): (body: Str)
    requires |block| + |codes| <= MAX_VARINT - 6
    ensures |body| == 2 + |EncVar(|block|)| + |block| + |codes| <= MAX_VARINT
  {
    EncVarLength(|block|);
    EncU16(id) + EncVar(|block|) + block + codes
  }

  // The reading of a SUBACK from the property block on.
  lemma SubackBlock(id: uint16, block: Str, codes: Str, rest: Str)
    requires |block| + |codes| <= MAX_VARINT - 6 && block != []
    ensures var body, count := SubackBody(id, block, codes), |EncVar(|block|)|;
      Subscriptions.ReadSuback(Subscriptions.UNSET, |body|, body + rest)
      == match ReadBlock(ACK_PROPERTIES, [], 2 + count, |block|, count, block + (codes + rest))
         case Failed(e) => Failed(e)
         case Got(b, s) =>
           Subscriptions.ReadReasonCodes(
             Subscriptions.ApplyAll(Subscriptions.UNSET.(packetIdentifier := id), b.properties), |body| - b.n, s)
  {
    hide EncVar;
    hide ReadVar;
    hide EncU16;
    hide ReadU16;
    hide ReadBlock;
    hide Fold;
    hide Subscriptions.ReadReasonCodes;
    var after := EncVar(|block|) + (block + (codes + rest));
    EncVarLength(|block|);
    U16RoundTrip(id, after);
    assert EncU16(id) + EncVar(|block|) + block + codes + rest == EncU16(id) + after;
    VarRoundTrip(|block|, block + (codes + rest));
  }

  lemma CodesCut(a: Subscriptions.SubackData, left: Str, over: nat, rest: Str)
    ensures Subscriptions.ReadReasonCodes(a, |left| - over, left + rest)
      == if |left| <= over then Failed(MalformedPacket)
         else Got(a.(reasonCodes := left[..|left| - over]), left[|left| - over..] + rest)
  {
    if |left| > over {
      assert (left + rest)[..|left| - over] == left[..|left| - over];
      assert (left + rest)[|left| - over..] == left[|left| - over..] + rest;
    }
  }

  // A SUBACK with one: what is left of the packet, without as many bytes at its end as have been counted too much, is
  // taken for the reason codes.
  lemma UnknownSuback(id: uint16, ps: seq<Property>, u: byte, tail: Str, codes: Str, rest: Str)
    requires AllReadable(ACK_PROPERTIES, ps) && u !in ACK_PROPERTIES
    requires Foreign(ACK_PROPERTIES, tail, Counts(ps, u, tail))
    requires |UnknownIn(ps, u, tail)| + |codes| <= MAX_VARINT - 6
    ensures var block, c := UnknownIn(ps, u, tail), Counts(ps, u, tail);
      var k, body := Skipped(tail, c), SubackBody(id, block, codes);
      var left, over := tail[k..] + codes, TooMany(tail, c);
      Subscriptions.ReadSuback(Subscriptions.UNSET, |body|, body + rest)
      == if |left| <= over then Failed(MalformedPacket)
         else
           Got(Subscriptions.ApplyAll(Subscriptions.UNSET.(packetIdentifier := id), ps)
               .(reasonCodes := left[..|left| - over]), left[|left| - over..] + rest)
  {
    hide EncVar;
    hide EncU16;
    hide EncProperties;
    hide ReadBlock;
    hide Fold;
    hide AllReadable;
    hide Turns;
    hide Stale;
    hide SubackBody;
    hide Skipped;
    hide TooMany;
    hide Subscriptions.ReadSuback;
    hide Subscriptions.ReadReasonCodes;
    var block, c := UnknownIn(ps, u, tail), Counts(ps, u, tail);
    var count, k := |EncVar(|block|)|, Skipped(tail, c);
    SubackBlock(id, block, codes, rest);
    UnknownBlock(ACK_PROPERTIES, ps, u, tail, 2 + count, count, codes + rest);
    assert block + (codes + rest) == EncProperties(ps) + [u] + tail + (codes + rest);
    assert tail[k..] + (codes + rest) == tail[k..] + codes + rest;
    CodesCut(Subscriptions.ApplyAll(Subscriptions.UNSET.(packetIdentifier := id), ps), tail[k..] + codes,
             TooMany(tail, c), rest);
  }
}
