// The properties of MQTT 5.0 section 2.2.2 that PUBLISH, the acknowledgements, SUBSCRIBE, UNSUBSCRIBE and SUBACK
// carry: how each is written, how a property block is read back, and the length the writers compute for it.
module Properties {
  import opened Bits
  import opened Primitives

  type StringMap = map<Str, Str>

  datatype Property =
    | MessageExpiryInterval(interval: uint32)
    | TopicAlias(alias: uint16)
    | ResponseTopic(topic: Str)
    | CorrelationData(data: Str)
    | UserProperty(key: Str, value: Str)
    | SubscriptionIdentifier(subscription: uint32)
    | ContentType(content: Str)
    | ReasonString(reason: Str)

  const PUBLISH_PROPERTIES: set<byte> := {0x02, 0x23, 0x08, 0x09, 0x26, 0x0B, 0x03}
  const ACK_PROPERTIES: set<byte> := {0x1F, 0x26}

  function Identifier(p: Property): byte {
    match p
    case MessageExpiryInterval(_) => 0x02
    case TopicAlias(_) => 0x23
    case ResponseTopic(_) => 0x08
    case CorrelationData(_) => 0x09
    case UserProperty(_, _) => 0x26
    case SubscriptionIdentifier(_) => 0x0B
    case ContentType(_) => 0x03
    case ReasonString(_) => 0x1F
  }

  function EncBody(p: Property): Str {
    match p
    case MessageExpiryInterval(v) => EncU32(v)
    case TopicAlias(v) => EncU16(v)
    case ResponseTopic(s) => EncStr(s)
    case CorrelationData(s) => EncStr(s)
    case UserProperty(k, v) => EncStr(k) + EncStr(v)
    case SubscriptionIdentifier(v) => EncVar(v)
    case ContentType(s) => EncStr(s)
    case ReasonString(s) => EncStr(s)
  }

  function EncProperty(p: Property): Str {
    [Identifier(p)] + EncBody(p)
  }

  function EncProperties(ps: seq<Property>): Str {
    if ps == [] then [] else EncProperties(ps[..|ps| - 1]) + EncProperty(ps[|ps| - 1])
  }

  // The length the writers add for a property: Length(true), or 1 + k.Length(false) + v.Length(false).
  function PropertyLength(p: Property): uint32 {
    match p
    case MessageExpiryInterval(_) => 5
    case TopicAlias(_) => 3
    case ResponseTopic(s) => StrLength(s, true)
    case CorrelationData(s) => StrLength(s, true)
    case UserProperty(k, v) => Add32(Add32(1, StrLength(k, false)), StrLength(v, false))
    case SubscriptionIdentifier(v) => if VarLength(v) == 0 then 0 else VarLength(v) + 1
    case ContentType(s) => StrLength(s, true)
    case ReasonString(s) => StrLength(s, true)
  }

  function TotalLength(ps: seq<Property>): nat {
    if ps == [] then 0 else TotalLength(ps[..|ps| - 1]) + PropertyLength(ps[|ps| - 1])
  }

  // The propertiesLen the writers accumulate in a 32-bit variable.
  function PropertiesLength(ps: seq<Property>): uint32 {
    Wrap32(TotalLength(ps))
  }

  // A property whose strings fit their 16-bit length field and whose integer has an encoding.
  predicate WithinBounds(p: Property) {
    match p
    case MessageExpiryInterval(_) => true
    case TopicAlias(_) => true
    case ResponseTopic(s) => |s| < 0x1_0000
    case CorrelationData(s) => |s| < 0x1_0000
    case UserProperty(k, v) => |k| < 0x1_0000 && |v| < 0x1_0000
    case SubscriptionIdentifier(v) => v <= MAX_VARINT
    case ContentType(s) => |s| < 0x1_0000
    case ReasonString(s) => |s| < 0x1_0000
  }

  // A property the writers emit only when it is set.
  function Optional(present: bool, p: Property): seq<Property> {
    if present then [p] else []
  }

  // ---------- Computed length and emitted bytes ----------

  predicate Encodable(p: Property) {
    p.SubscriptionIdentifier? ==> p.subscription <= MAX_VARINT
  }

  // The length computed for one property is the number of bytes written, modulo 2^32; a subscription identifier that
  // has no encoding counts for nothing but is written.
  lemma PropertyLengthExact(p: Property)
    ensures Encodable(p) ==> PropertyLength(p) == |EncProperty(p)| % TWO_TO_THE_32
    ensures !Encodable(p) ==> PropertyLength(p) == 0 && |EncProperty(p)| == 6
  {
    hide EncVar;
    match p
    case MessageExpiryInterval(_) =>
    case TopicAlias(_) =>
    case ResponseTopic(s) => StrLengthExact(s);
    case CorrelationData(s) => StrLengthExact(s);
    case UserProperty(k, v) =>
      StrLengthExact(k);
      StrLengthExact(v);
      hide StrLength;
      Add32Sum(1, 2 + |k|);
      Add32Sum(3 + |k|, 2 + |v|);
    case SubscriptionIdentifier(v) => EncVarLength(v);
    case ContentType(s) => StrLengthExact(s);
    case ReasonString(s) => StrLengthExact(s);
  }

  lemma EncPropertiesSnoc(ps: seq<Property>, p: Property)
    ensures EncProperties(ps + [p]) == EncProperties(ps) + EncProperty(p)
    ensures TotalLength(ps + [p]) == TotalLength(ps) + PropertyLength(p)
    ensures PropertiesLength(ps + [p]) == Add32(PropertiesLength(ps), PropertyLength(p))
  {
    hide PropertyLength;
    hide EncProperty;
    hide Add32;
    hide Wrap32;
    assert (ps + [p])[..|ps|] == ps;
    AddWrapped(TotalLength(ps), PropertyLength(p));
  }

  lemma {:induction false} EncPropertiesAppend(ps: seq<Property>, qs: seq<Property>)
    ensures EncProperties(ps + qs) == EncProperties(ps) + EncProperties(qs)
    ensures TotalLength(ps + qs) == TotalLength(ps) + TotalLength(qs)
  {
    hide EncProperty;
    hide PropertyLength;
    hide PropertiesLength;
    if qs == [] {
      assert ps + qs == ps;
    } else {
      var front, last := qs[..|qs| - 1], qs[|qs| - 1];
      assert qs == front + [last];
      assert ps + qs == (ps + front) + [last];
      EncPropertiesSnoc(front, last);
      EncPropertiesSnoc(ps + front, last);
      hide EncProperties;
      hide TotalLength;
      EncPropertiesAppend(ps, front);
    }
  }

  lemma OptionalAppended(ps: seq<Property>, present: bool, p: Property)
    ensures EncProperties(ps + Optional(present, p)) == EncProperties(ps) + if present then EncProperty(p) else []
    ensures PropertiesLength(ps + Optional(present, p))
         == if present then Add32(PropertiesLength(ps), PropertyLength(p)) else PropertiesLength(ps)
  {
    if present {
      EncPropertiesSnoc(ps, p);
    } else {
      assert ps + [] == ps;
    }
  }

  lemma PropertiesAppended(ps: seq<Property>, qs: seq<Property>)
    ensures EncProperties(ps + qs) == EncProperties(ps) + EncProperties(qs)
    ensures PropertiesLength(ps + qs) == Wrap32(PropertiesLength(ps) + TotalLength(qs))
  {
    hide TotalLength;
    EncPropertiesAppend(ps, qs);
  }

  // One optional property in front of others.
  lemma OptionalFirst(present: bool, p: Property, qs: seq<Property>)
    ensures EncProperties(Optional(present, p) + qs) == (if present then EncProperty(p) else []) + EncProperties(qs)
    ensures PropertiesLength(Optional(present, p) + qs)
         == Wrap32((if present then PropertyLength(p) else 0) + TotalLength(qs))
  {
    hide EncProperty;
    hide PropertyLength;
    if present {
      EncPropertiesAppend([p], qs);
      EncPropertiesSnoc([], p);
      assert [] + [p] == [p];
    } else {
      assert [] + qs == qs;
    }
  }

  lemma {:induction false} EncPropertiesNonEmpty(ps: seq<Property>)
    ensures |EncProperties(ps)| >= |ps|
  {
    hide EncBody;
    if ps != [] {
      EncPropertiesNonEmpty(ps[..|ps| - 1]);
    }
  }

  // How many of the bytes written for the properties the computed length leaves out, before reduction modulo 2^32.
  function Uncounted(ps: seq<Property>): nat {
    if ps == [] then 0 else Uncounted(ps[..|ps| - 1]) + (if Encodable(ps[|ps| - 1]) then 0 else 6)
  }

  lemma {:induction false} PropertiesLengthExact(ps: seq<Property>)
    ensures |EncProperties(ps)| >= Uncounted(ps)
    ensures PropertiesLength(ps) == (|EncProperties(ps)| - Uncounted(ps)) % TWO_TO_THE_32
    ensures Uncounted(ps) == 0 <==> forall p <- ps :: Encodable(p)
  {
    hide EncProperty;
    hide PropertyLength;
    if ps != [] {
      var front, last := ps[..|ps| - 1], ps[|ps| - 1];
      PropertiesLengthExact(front);
      PropertyLengthExact(last);
      assert ps == front + [last];
      EncPropertiesSnoc(front, last);
      Add32Sum(|EncProperties(front)| - Uncounted(front), if Encodable(last) then |EncProperty(last)| else 0);
      hide Add32;
      hide Wrap32;
      hide PropertiesLength;
      hide Encodable;
    }
  }

  // ---------- Reading a property block ----------

  // The value after a known identifier byte.
  function ReadBody(id: byte, s: Str): (r: Parsed<Property>)
    ensures r.Got? ==> |r.rest| < |s|
  {
    if id == 0x02 then match ReadU32(s) case Failed(e) => Failed(e) case Got(v, r) => Got(MessageExpiryInterval(v), r)
    else if id == 0x23 then match ReadU16(s) case Failed(e) => Failed(e) case Got(v, r) => Got(TopicAlias(v), r)
    else if id == 0x08 then match ReadStr(s) case Failed(e) => Failed(e) case Got(v, r) => Got(ResponseTopic(v), r)
    else if id == 0x09 then match ReadStr(s) case Failed(e) => Failed(e) case Got(v, r) => Got(CorrelationData(v), r)
    else if id == 0x26 then
      match ReadStr(s) case Failed(e) => Failed(e) case Got(k, r) =>
        match ReadStr(r) case Failed(e) => Failed(e) case Got(v, r') => Got(UserProperty(k, v), r')
    else if id == 0x0B then
      match ReadVar(s) case Failed(e) => Failed(e) case Got(v, r) => Got(SubscriptionIdentifier(v), r)
    else if id == 0x03 then match ReadStr(s) case Failed(e) => Failed(e) case Got(v, r) => Got(ContentType(v), r)
    else match ReadStr(s) case Failed(e) => Failed(e) case Got(v, r) => Got(ReasonString(v), r)
  }

  // The property loop of the readers, from a point inside it: done are the properties read so far, n and remaining
  // the two counters, and count the length of the last value read. An identifier outside known reads nothing, and the
  // loop then adds the stale count.
  datatype Block = Block(properties: seq<Property>, n: int)

  function ReadBlock(known: set<byte>, done: seq<Property>, n: int, remaining: int, count: nat, s: Str)
    : (r: Parsed<Block>)
    ensures r.Got? ==> |r.rest| <= |s|
    decreases if remaining > 0 then remaining else 0
  {
    if remaining <= 0 then Got(Block(done, n), s)
    else if s == [] then Failed(EndOfInput)
    else if s[0] in known then
      match ReadBody(s[0], s[1..])
      case Failed(e) => Failed(e)
      case Got(p, rest) =>
        var c := |s| - 1 - |rest|;
        ReadBlock(known, done + [p], n + 1 + c, remaining - 1 - c, c, rest)
    else ReadBlock(known, done, n + 1 + count, remaining - 1 - count, count, s[1..])
  }

  lemma BodyRoundTrip(p: Property, rest: Str)
    requires WithinBounds(p)
    ensures ReadBody(Identifier(p), EncBody(p) + rest) == Got(p, rest)
  {
    hide EncStr;
    hide ReadStr;
    hide EncU32;
    hide ReadU32;
    hide EncU16;
    hide ReadU16;
    hide EncVar;
    hide ReadVar;
    match p
    case MessageExpiryInterval(v) => U32RoundTrip(v, rest);
    case TopicAlias(v) => U16RoundTrip(v, rest);
    case ResponseTopic(s) => StrRoundTrip(s, rest);
    case CorrelationData(s) => StrRoundTrip(s, rest);
    case UserProperty(k, v) =>
      StrRoundTrip(k, EncStr(v) + rest);
      StrRoundTrip(v, rest);
      assert EncBody(p) + rest == EncStr(k) + (EncStr(v) + rest);
    case SubscriptionIdentifier(v) => VarRoundTrip(v, rest);
    case ContentType(s) => StrRoundTrip(s, rest);
    case ReasonString(s) => StrRoundTrip(s, rest);
  }

  ghost predicate AllReadable(known: set<byte>, ps: seq<Property>) {
    forall p <- ps :: WithinBounds(p) && Identifier(p) in known
  }

  // The property loop reads back any list of known properties within bounds, in order, and stops exactly behind it.
  lemma {:induction false} BlockRoundTrip(known: set<byte>, done: seq<Property>, ps: seq<Property>, n: int, count: nat,
                                          rest: Str)
    requires AllReadable(known, ps)
    ensures ReadBlock(known, done, n, |EncProperties(ps)|, count, EncProperties(ps) + rest)
         == Got(Block(done + ps, n + |EncProperties(ps)|), rest)
    decreases |ps|
  {
    hide EncBody;
    hide ReadBody;
    hide Identifier;
    if ps == [] {
      assert done + ps == done;
      assert EncProperties(ps) + rest == rest;
    } else {
      var p, tail := ps[0], ps[1..];
      var body, more := EncBody(p), EncProperties(tail) + rest;
      assert ps == [p] + tail;
      EncPropertiesAppend([p], tail);
      assert EncProperties([p]) == EncProperty(p) by {
        EncPropertiesSnoc([], p);
        assert [] + [p] == [p];
      }
      var s := EncProperties(ps) + rest;
      assert s == [Identifier(p)] + (body + more);
      assert s[1..] == body + more;
      BodyRoundTrip(p, more);
      BlockRoundTrip(known, done + [p], tail, n + 1 + |body|, |body|, rest);
      assert done + [p] + tail == done + ps;
    }
  }

  // What a reader has when it has taken over the properties of a list, one after the other.
  function Fold<D>(apply: (D, Property) -> D, d: D, ps: seq<Property>): D {
    if ps == [] then d else apply(Fold(apply, d, ps[..|ps| - 1]), ps[|ps| - 1])
  }

  lemma FoldSnoc<D>(apply: (D, Property) -> D, d: D, ps: seq<Property>, p: Property)
    ensures Fold(apply, d, ps + [p]) == apply(Fold(apply, d, ps), p)
    ensures Fold(apply, d, [p]) == apply(d, p) && Fold(apply, d, []) == d
  {
    assert (ps + [p])[..|ps|] == ps;
    assert [p][..0] == [];
  }

  lemma {:induction false} FoldAppend<D>(apply: (D, Property) -> D, d: D, ps: seq<Property>, qs: seq<Property>)
    ensures Fold(apply, d, ps + qs) == Fold(apply, Fold(apply, d, ps), qs)
  {
    if qs == [] {
      assert ps + qs == ps;
    } else {
      var front := qs[..|qs| - 1];
      assert (ps + qs)[..|ps + qs| - 1] == ps + front;
      FoldAppend(apply, d, ps, front);
    }
  }

  // ---------- User properties in map order ----------

  // A map is written in the order an iteration over it happens to visit its keys.
  ghost predicate IterationOrder(order: seq<Str>, m: StringMap) {
    multiset(order) == multiset(m.Keys)
  }

  // A Go map yields the empty string for a key it does not hold.
  function Lookup(m: StringMap, k: Str): Str {
    if k in m then m[k] else []
  }

  function UserProperties(order: seq<Str>, m: StringMap): seq<Property> {
    seq(|order|, i requires 0 <= i < |order| => UserProperty(order[i], Lookup(m, order[i])))
  }

  // The entries of m under the keys of order.
  function Restrict(order: seq<Str>, m: StringMap): StringMap {
    map k | k in order && k in m :: m[k]
  }

  lemma RestrictSnoc(order: seq<Str>, k: Str, m: StringMap)
    requires k in m
    ensures Restrict(order + [k], m) == Restrict(order, m)[k := m[k]]
  {
  }

  lemma RestrictAll(order: seq<Str>, m: StringMap)
    requires IterationOrder(order, m)
    ensures Restrict(order, m) == m
    ensures forall k <- order :: k in m
  {
    assert forall k :: k in order <==> k in multiset(order);
  }

  lemma WithoutAt(order: seq<Str>, i: nat)
    requires i < |order|
    ensures multiset(order[..i] + order[i + 1..]) == multiset(order) - multiset{order[i]}
  {
    assert order == order[..i] + [order[i]] + order[i + 1..];
  }

  // Taking over the user properties in any order rebuilds the map; put sets the map of what is being read.
  lemma {:induction false} FoldUserProperties<D(!new)>(apply: (D, Property) -> D, put: (D, StringMap) -> D, d: D,
                                                       order: seq<Str>, m: StringMap)
    requires forall k <- order :: k in m
    requires forall u: StringMap, k: Str, v: Str :: apply(put(d, u), UserProperty(k, v)) == put(d, u[k := v])
    ensures Fold(apply, put(d, map[]), UserProperties(order, m)) == put(d, Restrict(order, m))
  {
    if order == [] {
      assert Restrict(order, m) == map[];
    } else {
      hide Restrict;
      var front, k := order[..|order| - 1], order[|order| - 1];
      assert order == front + [k];
      assert UserProperties(order, m) == UserProperties(front, m) + [UserProperty(k, m[k])];
      FoldUserProperties(apply, put, d, front, m);
      RestrictSnoc(front, k, m);
      FoldSnoc(apply, put(d, map[]), UserProperties(front, m), UserProperty(k, m[k]));
    }
  }

  // The sum of the lengths of the user properties does not depend on the iteration order.
  lemma {:induction false} LengthIsOrderFree(order: seq<Str>, order': seq<Str>, m: StringMap)
    requires multiset(order) == multiset(order')
    ensures TotalLength(UserProperties(order, m)) == TotalLength(UserProperties(order', m))
  {
    hide PropertyLength;
    hide TotalLength;
    hide UserProperties;
    if order == [] {
      assert |order'| == |multiset(order')| == 0;
    } else {
      var k := order[0];
      assert k in multiset(order');
      var i :| 0 <= i < |order'| && order'[i] == k;
      WithoutAt(order, 0);
      WithoutAt(order', i);
      PullOut(order, 0, m);
      PullOut(order', i, m);
      LengthIsOrderFree(order[..0] + order[1..], order'[..i] + order'[i + 1..], m);
    }
  }

  lemma PullOut(order: seq<Str>, i: nat, m: StringMap)
    requires i < |order|
    ensures TotalLength(UserProperties(order, m))
         == TotalLength(UserProperties(order[..i] + order[i + 1..], m))
            + PropertyLength(UserProperty(order[i], Lookup(m, order[i])))
  {
    hide PropertyLength;
    hide TotalLength;
    var all := UserProperties(order, m);
    assert all == all[..i] + [all[i]] + all[i + 1..];
    assert UserProperties(order[..i] + order[i + 1..], m) == all[..i] + all[i + 1..];
    MoveToEnd(all[..i], all[i], all[i + 1..]);
  }

  lemma {:induction false} MoveToEnd(before: seq<Property>, p: Property, after: seq<Property>)
    ensures TotalLength(before + [p] + after) == TotalLength(before + after) + PropertyLength(p)
  {
    hide PropertyLength;
    hide TotalLength;
    if after == [] {
      assert before + [p] + after == before + [p] && before + after == before;
      EncPropertiesSnoc(before, p);
    } else {
      var front, last := after[..|after| - 1], after[|after| - 1];
      MoveToEnd(before, p, front);
      var u, v := before + [p] + front, before + front;
      assert before + [p] + after == u + [last];
      assert before + after == v + [last];
      EncPropertiesSnoc(u, last);
      EncPropertiesSnoc(v, last);
    }
  }

  // An iteration that has visited the keys in order and has todo still before it.
  ghost predicate Visited(order: seq<Str>, m: StringMap, todo: set<Str>) {
    todo <= m.Keys && multiset(order) == multiset(m.Keys - todo)
  }

  lemma VisitFirst(m: StringMap)
    ensures Visited([], m, m.Keys)
  {
  }

  lemma VisitNext(order: seq<Str>, m: StringMap, todo: set<Str>, k: Str)
    requires Visited(order, m, todo) && k in todo
    ensures k in m && Visited(order + [k], m, todo - {k})
    ensures UserProperties(order + [k], m) == UserProperties(order, m) + [UserProperty(k, m[k])]
  {
    assert m.Keys - (todo - {k}) == (m.Keys - todo) + {k};
  }

  lemma VisitLast(order: seq<Str>, m: StringMap)
    requires Visited(order, m, {})
    ensures IterationOrder(order, m)
  {
    assert m.Keys - {} == m.Keys;
  }

  // One turn of the length loop.
  lemma LengthVisit(base: uint32, order: seq<Str>, m: StringMap, todo: set<Str>, k: Str, propertiesLen: uint32)
    requires Visited(order, m, todo) && k in todo
    requires propertiesLen == Wrap32(base + TotalLength(UserProperties(order, m)))
    ensures k in m && Visited(order + [k], m, todo - {k})
    ensures Add32(propertiesLen, Add32(Add32(1, StrLength(k, false)), StrLength(m[k], false)))
         == Wrap32(base + TotalLength(UserProperties(order + [k], m)))
  {
    hide Visited;
    hide UserProperties;
    hide TotalLength;
    hide StrLength;
    VisitNext(order, m, todo, k);
    EncPropertiesSnoc(UserProperties(order, m), UserProperty(k, m[k]));
    AddWrapped(base + TotalLength(UserProperties(order, m)), PropertyLength(UserProperty(k, m[k])));
  }

  // The first loop of the writers over the user properties: their lengths are added to propertiesLen. It does not
  // matter in which order.
  method AddUserProperties(m: StringMap, base: uint32) returns (propertiesLen: uint32)
    ensures forall order :: IterationOrder(order, m) ==>
              propertiesLen == Wrap32(base + TotalLength(UserProperties(order, m)))
  {
    hide Visited;
    hide UserProperties;
    hide TotalLength;
    hide StrLength;
    propertiesLen := base;
    ghost var visited: seq<Str> := [];
    var todo := m.Keys;
    VisitFirst(m);
    NoUserProperties(m);
    assert propertiesLen == Wrap32(base);
    hide Wrap32;
    hide Add32;
    while todo != {}
      invariant Visited(visited, m, todo)
      invariant propertiesLen == Wrap32(base + TotalLength(UserProperties(visited, m)))
      decreases todo
    {
      var k :| k in todo;
      LengthVisit(base, visited, m, todo, k, propertiesLen);
      var length := Add32(Add32(1, StrLength(k, false)), StrLength(m[k], false));
      propertiesLen := Add32(propertiesLen, length);
      todo := todo - {k};
      visited := visited + [k];
    }
    VisitLast(visited, m);
    forall order | IterationOrder(order, m)
      ensures propertiesLen == Wrap32(base + TotalLength(UserProperties(order, m)))
    {
      LengthIsOrderFree(visited, order, m);
    }
  }

  lemma NoUserProperties(m: StringMap)
    ensures UserProperties([], m) == [] && EncProperties([]) == []
    ensures TotalLength([]) == 0 && PropertiesLength([]) == 0
  {
  }

  // The second loop of the writers over the user properties.
  method WriteUserProperties(m: StringMap, w: Buffer) returns (ghost order: seq<Str>)
    modifies w
    ensures IterationOrder(order, m)
    ensures w.data == old(w.data) + EncProperties(UserProperties(order, m))
  {
    hide Visited;
    hide UserProperties;
    hide TotalLength;
    hide PropertyLength;
    hide EncProperties;
    hide EncStr;
    order := [];
    var todo := m.Keys;
    VisitFirst(m);
    NoUserProperties(m);
    while todo != {}
      invariant Visited(order, m, todo)
      invariant w.data == old(w.data) + EncProperties(UserProperties(order, m))
      decreases todo
    {
      var k :| k in todo;
      VisitNext(order, m, todo, k);
      EncPropertiesSnoc(UserProperties(order, m), UserProperty(k, m[k]));
      WriteByte(0x26, w);
      WriteStr(k, w);
      WriteStr(m[k], w);
      assert EncProperty(UserProperty(k, m[k])) == [0x26] + EncStr(k) + EncStr(m[k]);
      todo := todo - {k};
      order := order + [k];
    }
    VisitLast(order, m);
  }
}
