// The event channels of a client (mqtt/client.go): the registry CreateEventChannel, CloseEventChannel, Subscribe and
// Unsubscribe keep in two maps, and the routing of inbound packets to them by signal and Poll.
module Events {
  import opened Bits
  import opened Primitives
  import opened TopicMatch

  // A packet type, and a name for the packet.
  datatype Event = Event(packetType: nat, data: nat)

  // A Go channel with a buffer; accepted and taken are its history.
  datatype Chan = Chan(capacity: nat, queue: seq<Event>, closed: bool, accepted: seq<Event>, taken: seq<Event>)

  // What the maps hold: the channel's id and the channel. Channels are named by numbers; 0 is nil.
  datatype EventChannel = EventChannel(id: nat, channel: nat)

  const NIL := EventChannel(0, 0)

  datatype Registry = Registry(
    chans: map<nat, Chan>,                // every channel ever made
    eventChans: map<nat, EventChannel>,   // the general channels
    topicChans: map<Str, EventChannel>,   // the channels bound to a topic filter
    counter: nat)

  datatype Result = Ok(registry: Registry) | Panic

  const EMPTY := Registry(map[], map[], map[], 1)

  // ---------- Channels ----------

  // A send that does not block: a full channel misses the event.
  function Offer(ch: Chan, e: Event): Chan {
    if |ch.queue| < ch.capacity then ch.(queue := ch.queue + [e], accepted := ch.accepted + [e]) else ch
  }

  function OfferTimes(ch: Chan, e: Event, n: nat): Chan {
    if n == 0 then ch else Offer(OfferTimes(ch, e, n - 1), e)
  }

  function Take(ch: Chan): Chan {
    if ch.queue == [] then ch else ch.(queue := ch.queue[1..], taken := ch.taken + [ch.queue[0]])
  }

  // First in first out, within capacity.
  predicate Fifo(ch: Chan) {
    1 <= ch.capacity && |ch.queue| <= ch.capacity && ch.accepted == ch.taken + ch.queue
  }

  // ---------- Operations ----------

  function Created(r: Registry, n: int): Registry {
    Registry(r.chans[r.counter := Chan(if n <= 0 then 1 else n, [], false, [], [])],
             r.eventChans[r.counter := EventChannel(r.counter, r.counter)], r.topicChans, r.counter + 1)
  }

  // A SUBACK with a success code; a channel that is not in eventChans gives Go's zero value.
  function Bound(r: Registry, filter: Str, id: nat): Registry {
    if id == 0 then r
    else
      r.(topicChans := r.topicChans[filter := if id in r.eventChans then r.eventChans[id] else NIL],
         eventChans := r.eventChans - {id})
  }

  function Unbound(m: map<Str, EventChannel>, id: nat, filters: set<Str>): map<Str, EventChannel> {
    map f | f in m && !(f in filters && m[f].id == id) :: m[f]
  }

  // Closing a channel that is nil or closed panics.
  function Closed(r: Registry, ch: EventChannel): Result {
    if ch.channel !in r.chans || r.chans[ch.channel].closed then Panic
    else
      Ok(r.(chans := r.chans[ch.channel := r.chans[ch.channel].(closed := true)],
            eventChans := r.eventChans - {ch.id},
            topicChans := Unbound(r.topicChans, ch.id, r.topicChans.Keys)))
  }

  // One topic of an UNSUBSCRIBE.
  function Unsubscribed(r: Registry, filter: Str): Result {
    if filter in r.topicChans then Closed(r, r.topicChans[filter]) else Ok(r)
  }

  function UnsubscribedAll(r: Registry, filters: seq<Str>): Result {
    if filters == [] then Ok(r)
    else
      match UnsubscribedAll(r, filters[..|filters| - 1])
      case Panic => Panic
      case Ok(r1) => Unsubscribed(r1, filters[|filters| - 1])
  }

  // The channels in a set are each offered an event; sending on a closed channel panics.
  function Offered(r: Registry, ids: set<nat>, e: Event): Result {
    if exists c <- ids :: c in r.chans && r.chans[c].closed then Panic
    else Ok(r.(chans := map c | c in r.chans :: if c in ids then Offer(r.chans[c], e) else r.chans[c]))
  }

  // signal: to one channel, or to all the general ones for nil.
  function Signalled(r: Registry, e: Event, channel: nat): Result {
    Offered(r, if channel == 0 then (set k | k in r.eventChans :: r.eventChans[k].channel) else {channel}, e)
  }

  // The filters among fs that match and are bound to channel c.
  function Hits(r: Registry, topic: Str, fs: set<Str>, c: nat): set<Str> {
    set f | f in fs && f in r.topicChans && r.topicChans[f].channel == c && MatchOutcome(topic, f) == Matched
  }

  // How often c is offered a publish while the filters in fs are handled: once for each of its own filters, and the
  // general channels once for each filter bound to nil.
  function Times(r: Registry, topic: Str, fs: set<Str>, c: nat): nat {
    |Hits(r, topic, fs, c)| + if c in r.eventChans then |Hits(r, topic, fs, 0)| else 0
  }

  // ---------- Routing: Poll's PUBLISH case ----------

  function RouteOne(r: Registry, topic: Str, e: Event, filter: Str): Result {
    if filter !in r.topicChans then Ok(r)
    else
      match MatchOutcome(topic, filter)
      case IndexPanic => Panic
      case NotMatched => Ok(r)
      case Matched => Signalled(r, e, r.topicChans[filter].channel)
  }

  // The loop over topicChans, in some order.
  function RouteIn(r: Registry, topic: Str, e: Event, order: seq<Str>): Result {
    if order == [] then Ok(r)
    else
      match RouteIn(r, topic, e, order[..|order| - 1])
      case Panic => Panic
      case Ok(r1) => RouteOne(r1, topic, e, order[|order| - 1])
  }

  function Published(r: Registry, topic: Str, e: Event, order: seq<Str>): Result {
    match RouteIn(r, topic, e, order)
    case Panic => Panic
    case Ok(r1) => Signalled(r1, e, 0)
  }

  // ---------- The registry invariant ----------

  predicate Registered(r: Registry, ch: EventChannel) {
    ch.id == ch.channel && ch.id in r.chans && !r.chans[ch.id].closed
  }

  // Registered channels are open; no id is in both maps or bound to two filters, and all are below the counter.
  ghost predicate Valid(r: Registry) {
    && r.counter > 0
    && (forall k <- r.eventChans :: r.eventChans[k].id == k && Registered(r, r.eventChans[k]))
    && (forall f <- r.topicChans | r.topicChans[f] != NIL ::
          Registered(r, r.topicChans[f]) && r.topicChans[f].id !in r.eventChans)
    && (forall f <- r.topicChans, g <- r.topicChans | f != g ::
          r.topicChans[f].id != r.topicChans[g].id || r.topicChans[f] == NIL)
    && (forall c <- r.chans :: 0 < c < r.counter && Fifo(r.chans[c]))
  }

  lemma NilUnknown(r: Registry)
    requires Valid(r)
    ensures 0 !in r.chans
  {
  }

  lemma CreateValid(r: Registry, n: int)
    requires Valid(r)
    ensures Valid(Created(r, n))
  {
  }

  lemma BindValid(r: Registry, filter: Str, id: nat)
    requires Valid(r)
    ensures Valid(Bound(r, filter, id))
  {
  }

  lemma CloseValid(r: Registry, ch: EventChannel)
    requires Valid(r) && Closed(r, ch).Ok? && ch.id == ch.channel
    ensures Valid(Closed(r, ch).registry)
  {
  }

  lemma OfferedValid(r: Registry, ids: set<nat>, e: Event)
    requires Valid(r) && Offered(r, ids, e).Ok?
    ensures Valid(Offered(r, ids, e).registry)
  {
  }

  // ---------- Routing is exact ----------

  lemma GeneralChannels(r: Registry)
    requires Valid(r)
    ensures (set k | k in r.eventChans :: r.eventChans[k].channel) == r.eventChans.Keys
  {
    forall k <- r.eventChans ensures k in (set k | k in r.eventChans :: r.eventChans[k].channel) {
      assert r.eventChans[k].channel == k;
    }
  }

  // What signal does on an open channel, or on all the general ones, one channel at a time.
  lemma SignalledOpen(r: Registry, e: Event, channel: nat)
    requires Valid(r) && (channel == 0 || (channel in r.chans && !r.chans[channel].closed))
    ensures Signalled(r, e, channel) ==
      Ok(r.(chans := map c | c in r.chans ::
                       if (if channel == 0 then c in r.eventChans else c == channel) then Offer(r.chans[c], e)
                       else r.chans[c]))
  {
    GeneralChannels(r);
  }

  lemma MatchedOpen(r: Registry, f: Str)
    requires Valid(r) && f in r.topicChans
    ensures var c := r.topicChans[f].channel; c == 0 || (c in r.chans && !r.chans[c].closed)
  {
  }

  // What remains of a publish's routing when the filters of fs have been handled; last is 1 once the general channels
  // have had their turn.
  function RoutedChans(r: Registry, topic: Str, e: Event, fs: set<Str>, last: nat): map<nat, Chan> {
    map c | c in r.chans ::
      OfferTimes(r.chans[c], e, Times(r, topic, fs, c) + if c in r.eventChans then last else 0)
  }

  lemma HitsMore(r: Registry, topic: Str, fs: set<Str>, f: Str, c: nat)
    requires f !in fs && f in r.topicChans
    ensures |Hits(r, topic, fs + {f}, c)| == |Hits(r, topic, fs, c)|
      + if r.topicChans[f].channel == c && MatchOutcome(topic, f) == Matched then 1 else 0
  {
    if r.topicChans[f].channel == c && MatchOutcome(topic, f) == Matched {
      assert Hits(r, topic, fs + {f}, c) == Hits(r, topic, fs, c) + {f};
    } else {
      assert Hits(r, topic, fs + {f}, c) == Hits(r, topic, fs, c);
    }
  }

  lemma TimesMore(r: Registry, topic: Str, fs: set<Str>, f: Str, c: nat)
    requires f !in fs && f in r.topicChans && c != 0
    ensures Times(r, topic, fs + {f}, c) == Times(r, topic, fs, c)
      + if MatchOutcome(topic, f) != Matched then 0
        else if (if r.topicChans[f].channel == 0 then c in r.eventChans else c == r.topicChans[f].channel) then 1
        else 0
  {
    HitsMore(r, topic, fs, f, c);
    HitsMore(r, topic, fs, f, 0);
  }

  lemma RouteStep(r: Registry, topic: Str, e: Event, fs: set<Str>, f: Str)
    requires Valid(r) && f !in fs && f in r.topicChans && MatchOutcome(topic, f) != IndexPanic
    requires Valid(r.(chans := RoutedChans(r, topic, e, fs, 0)))
    ensures RouteOne(r.(chans := RoutedChans(r, topic, e, fs, 0)), topic, e, f)
         == Ok(r.(chans := RoutedChans(r, topic, e, fs + {f}, 0)))
  {
    hide Times;
    hide Valid;
    hide Offer;
    hide MatchOutcome;
    hide Signalled;
    var r1 := r.(chans := RoutedChans(r, topic, e, fs, 0));
    NilUnknown(r);
    forall c <- r.chans
      ensures Times(r, topic, fs + {f}, c) == Times(r, topic, fs, c)
        + if MatchOutcome(topic, f) != Matched then 0
          else if (if r.topicChans[f].channel == 0 then c in r.eventChans else c == r.topicChans[f].channel) then 1
          else 0
    {
      TimesMore(r, topic, fs, f, c);
    }
    if MatchOutcome(topic, f) == Matched {
      MatchedOpen(r1, f);
      SignalledOpen(r1, e, r.topicChans[f].channel);
    }
    assert RouteOne(r1, topic, e, f).registry.chans == RoutedChans(r, topic, e, fs + {f}, 0);
  }

  lemma OfferTimesFifo(ch: Chan, e: Event, n: nat)
    requires Fifo(ch)
    ensures Fifo(OfferTimes(ch, e, n)) && OfferTimes(ch, e, n).closed == ch.closed
  {
  }

  lemma RoutedValid(r: Registry, topic: Str, e: Event, fs: set<Str>, last: nat)
    requires Valid(r)
    ensures Valid(r.(chans := RoutedChans(r, topic, e, fs, last)))
  {
    hide Times;
    forall c <- r.chans, n: nat
      ensures Fifo(OfferTimes(r.chans[c], e, n)) && OfferTimes(r.chans[c], e, n).closed == r.chans[c].closed
    {
      OfferTimesFifo(r.chans[c], e, n);
    }
  }

  function Elements(order: seq<Str>): set<Str> {
    set f | f in order
  }

  predicate NoRepeats(order: seq<Str>) {
    forall i, j :: 0 <= i < j < |order| ==> order[i] != order[j]
  }

  // The loop over topicChans in any order: it panics exactly if matchTopic does for one of the filters; otherwise each
  // channel is offered the publish as often as Times says.
  lemma {:induction false} RouteAlong(r: Registry, topic: Str, e: Event, order: seq<Str>)
    requires Valid(r) && NoRepeats(order) && Elements(order) <= r.topicChans.Keys
    ensures RouteIn(r, topic, e, order)
         == if exists f <- order :: MatchOutcome(topic, f) == IndexPanic then Panic
            else Ok(r.(chans := RoutedChans(r, topic, e, Elements(order), 0)))
  {
    hide Times;
    hide Valid;
    hide MatchOutcome;
    hide RouteOne;
    if order == [] {
      assert Elements(order) == {};
      NotRouted(r, topic, e);
    } else {
      var front, f := order[..|order| - 1], order[|order| - 1];
      assert order == front + [f];
      assert f !in front;
      RouteAlong(r, topic, e, front);
      assert Elements(order) == Elements(front) + {f};
      if exists g <- front :: MatchOutcome(topic, g) == IndexPanic {
        var g :| g in front && MatchOutcome(topic, g) == IndexPanic;
        assert g in order;
      } else if MatchOutcome(topic, f) == IndexPanic {
        assert f in order;
        RoutePanics(r.(chans := RoutedChans(r, topic, e, Elements(front), 0)), topic, e, f);
      } else {
        RoutedValid(r, topic, e, Elements(front), 0);
        RouteStep(r, topic, e, Elements(front), f);
      }
    }
  }

  lemma NotRouted(r: Registry, topic: Str, e: Event)
    ensures RoutedChans(r, topic, e, {}, 0) == r.chans
  {
    forall c <- r.chans ensures Times(r, topic, {}, c) == 0 {
      assert Hits(r, topic, {}, c) == {};
      assert Hits(r, topic, {}, 0) == {};
    }
  }

  lemma RoutePanics(r: Registry, topic: Str, e: Event, f: Str)
    requires f in r.topicChans && MatchOutcome(topic, f) == IndexPanic
    ensures RouteOne(r, topic, e, f) == Panic
  {
  }

  // An order in which Go may range over topicChans.
  predicate Enumerates(order: seq<Str>, m: map<Str, EventChannel>) {
    NoRepeats(order) && Elements(order) == m.Keys
  }

  ghost predicate MatcherPanics(r: Registry, topic: Str) {
    exists f <- r.topicChans :: MatchOutcome(topic, f) == IndexPanic
  }

  // The general channels have their turn at the end.
  lemma LastTurn(r: Registry, topic: Str, e: Event)
    requires Valid(r)
    ensures Signalled(r.(chans := RoutedChans(r, topic, e, r.topicChans.Keys, 0)), e, 0)
         == Ok(r.(chans := RoutedChans(r, topic, e, r.topicChans.Keys, 1)))
  {
    hide Times;
    var r1 := r.(chans := RoutedChans(r, topic, e, r.topicChans.Keys, 0));
    RoutedValid(r, topic, e, r.topicChans.Keys, 0);
    SignalledOpen(r1, e, 0);
    hide Valid;
    hide Signalled;
    hide Offer;
    assert Signalled(r1, e, 0).registry.chans == RoutedChans(r, topic, e, r.topicChans.Keys, 1);
  }

  // Handling a PUBLISH, whatever the order of the map.
  lemma RoutingExact(r: Registry, topic: Str, e: Event, order: seq<Str>)
    requires Valid(r) && Enumerates(order, r.topicChans)
    ensures Published(r, topic, e, order)
         == if MatcherPanics(r, topic) then Panic
            else Ok(r.(chans := RoutedChans(r, topic, e, r.topicChans.Keys, 1)))
  {
    RouteAlong(r, topic, e, order);
    LastTurn(r, topic, e);
    hide Valid;
    hide RoutedChans;
    hide Signalled;
    hide RouteIn;
    hide MatchOutcome;
    assert forall f :: f in order <==> f in Elements(order);
  }

  // Whether c is to hear of a publish: a general channel, or one bound to a matching filter.
  ghost predicate Listens(r: Registry, topic: Str, c: nat) {
    c in r.eventChans || exists f <- r.topicChans :: r.topicChans[f].channel == c && MatchOutcome(topic, f) == Matched
  }

  ghost function Heard(r: Registry, topic: Str, e: Event): map<nat, Chan> {
    map c | c in r.chans :: if Listens(r, topic, c) then Offer(r.chans[c], e) else r.chans[c]
  }

  ghost predicate NilMatches(r: Registry, topic: Str) {
    exists f <- r.topicChans :: r.topicChans[f] == NIL && MatchOutcome(topic, f) == Matched
  }

  lemma OwnFilter(r: Registry, topic: Str, c: nat)
    requires Valid(r) && c in r.chans
    ensures |Hits(r, topic, r.topicChans.Keys, c)| == if c !in r.eventChans && Listens(r, topic, c) then 1 else 0
  {
    var hits := Hits(r, topic, r.topicChans.Keys, c);
    if c !in r.eventChans && Listens(r, topic, c) {
      var f :| f in r.topicChans && r.topicChans[f].channel == c && MatchOutcome(topic, f) == Matched;
      assert hits == {f};
    } else {
      assert hits == {};
    }
  }

  lemma NilFilters(r: Registry, topic: Str)
    requires Valid(r)
    ensures |Hits(r, topic, r.topicChans.Keys, 0)| > 0 <==> NilMatches(r, topic)
  {
    var hits := Hits(r, topic, r.topicChans.Keys, 0);
    if NilMatches(r, topic) {
      var f :| f in r.topicChans && r.topicChans[f] == NIL && MatchOutcome(topic, f) == Matched;
      assert f in hits;
    } else {
      forall f <- r.topicChans | r.topicChans[f].channel == 0 ensures r.topicChans[f] == NIL {
      }
      assert hits == {};
    }
  }

  lemma TimesOnce(r: Registry, topic: Str, c: nat)
    requires Valid(r) && c in r.chans && !NilMatches(r, topic)
    ensures Times(r, topic, r.topicChans.Keys, c) + (if c in r.eventChans then 1 else 0)
         == if Listens(r, topic, c) then 1 else 0
  {
    OwnFilter(r, topic, c);
    NilFilters(r, topic);
  }

  lemma OfferedOnce(r: Registry, topic: Str, e: Event, c: nat)
    requires Valid(r) && c in r.chans && !NilMatches(r, topic)
    ensures OfferTimes(r.chans[c], e, Times(r, topic, r.topicChans.Keys, c) + if c in r.eventChans then 1 else 0)
         == if Listens(r, topic, c) then Offer(r.chans[c], e) else r.chans[c]
  {
    TimesOnce(r, topic, c);
    hide Valid;
    hide Times;
    hide Listens;
    hide NilMatches;
    assert OfferTimes(r.chans[c], e, 0) == r.chans[c];
    assert OfferTimes(r.chans[c], e, 1) == Offer(r.chans[c], e);
  }

  // Routing is exact: if no filter bound to nil matches, every listening channel is offered the event once, and no
  // other channel is touched.
  lemma ListenersOnce(r: Registry, topic: Str, e: Event, order: seq<Str>)
    requires Valid(r) && Enumerates(order, r.topicChans)
    requires !MatcherPanics(r, topic) && !NilMatches(r, topic)
    ensures Published(r, topic, e, order) == Ok(r.(chans := Heard(r, topic, e)))
  {
    RoutingExact(r, topic, e, order);
    HeardOnce(r, topic, e);
    hide Valid;
    hide MatcherPanics;
    hide NilMatches;
    hide RoutedChans;
    hide Heard;
  }

  lemma HeardOnce(r: Registry, topic: Str, e: Event)
    requires Valid(r) && !NilMatches(r, topic)
    ensures RoutedChans(r, topic, e, r.topicChans.Keys, 1) == Heard(r, topic, e)
  {
    hide Valid;
    hide Times;
    hide Listens;
    hide NilMatches;
    hide OfferTimes;
    hide Offer;
    forall c <- r.chans
      ensures OfferTimes(r.chans[c], e, Times(r, topic, r.topicChans.Keys, c) + if c in r.eventChans then 1 else 0)
           == if Listens(r, topic, c) then Offer(r.chans[c], e) else r.chans[c]
    {
      OfferedOnce(r, topic, e, c);
    }
  }

  // ... and only then: a filter bound to nil that matches sends the event to every general channel once more.
  lemma NilMatchRepeats(r: Registry, topic: Str, e: Event, order: seq<Str>, c: nat)
    requires Valid(r) && Enumerates(order, r.topicChans) && c in r.eventChans
    requires !MatcherPanics(r, topic)
    requires r.chans[c].capacity >= |r.chans[c].queue| + 2
    ensures Published(r, topic, e, order).Ok? && c in Published(r, topic, e, order).registry.chans
    ensures Published(r, topic, e, order).registry.chans[c].queue == r.chans[c].queue + [e] <==> !NilMatches(r, topic)
  {
    RoutingExact(r, topic, e, order);
    NilFilters(r, topic);
    OwnFilter(r, topic, c);
    hide Valid;
    hide Hits;
    hide NilMatches;
    hide MatcherPanics;
    hide Published;
    var n := Times(r, topic, r.topicChans.Keys, c) + 1;
    OfferTimesGrows(r.chans[c], e, n);
    assert OfferTimes(r.chans[c], e, 1) == Offer(r.chans[c], e);
  }

  lemma {:induction false} OfferTimesGrows(ch: Chan, e: Event, n: nat)
    ensures var ch' := OfferTimes(ch, e, n);
      ch'.capacity == ch.capacity && |ch.queue| <= |ch'.queue|
      && (n >= 2 && ch.capacity >= |ch.queue| + 2 ==> |ch'.queue| >= |ch.queue| + 2)
  {
    if n > 0 {
      OfferTimesGrows(ch, e, n - 1);
      if n == 2 {
        assert OfferTimes(ch, e, 1) == Offer(ch, e);
      }
    }
  }

  // ---------- Runs ----------

  datatype Action =
    | Create(n: int)
    | Bind(filter: Str, id: nat)                       // a SUBACK success code
    | Close(id: nat)                                   // by the user
    | Unbind(filter: Str)                              // an UNSUBACK
    | Signal(e: Event)                                 // any other packet
    | Publish(topic: Str, e: Event, order: seq<Str>)
    | Consume(id: nat)

  function Step(r: Registry, a: Action): Result {
    match a
    case Create(n) => Ok(Created(r, n))
    case Bind(filter, id) => Ok(Bound(r, filter, id))
    case Close(id) => Closed(r, EventChannel(id, id))
    case Unbind(filter) => Unsubscribed(r, filter)
    case Signal(e) => Signalled(r, e, 0)
    case Publish(topic, e, order) => Published(r, topic, e, order)
    case Consume(id) => Ok(Consumed(r, id))
  }

  function Consumed(r: Registry, id: nat): Registry {
    if id in r.chans then r.(chans := r.chans[id := Take(r.chans[id])]) else r
  }

  function Run(r: Registry, run: seq<Action>): Result {
    if run == [] then Ok(r)
    else
      match Run(r, run[..|run| - 1])
      case Panic => Panic
      case Ok(r1) => Step(r1, run[|run| - 1])
  }

  // A condition on every step of a run.
  ghost predicate Throughout(r: Registry, run: seq<Action>, p: (Registry, Action) -> bool) {
    run == [] ||
    var front := run[..|run| - 1];
    Throughout(r, front, p) && (Run(r, front).Ok? ==> p(Run(r, front).registry, run[|run| - 1]))
  }

  // The range over topicChans visits each filter once.
  ghost predicate Ranged(r: Registry, a: Action) {
    a.Publish? ==> Enumerates(a.order, r.topicChans)
  }

  // The user binds only channels that are in eventChans and closes only open ones; no filter makes matchTopic panic.
  ghost predicate Polite(r: Registry, a: Action) {
    && Ranged(r, a)
    && (a.Bind? ==> a.id == 0 || a.id in r.eventChans)
    && (a.Close? ==> a.id in r.chans && !r.chans[a.id].closed)
    && (a.Publish? ==> !MatcherPanics(r, a.topic))
  }

  ghost predicate NoNil(r: Registry) {
    forall f <- r.topicChans :: r.topicChans[f] != NIL
  }

  // What panics: closing a channel that is nil or closed, and the matcher. No send on a closed channel does.
  lemma PanicsExactly(r: Registry, a: Action)
    requires Valid(r) && Ranged(r, a)
    ensures Step(r, a).Panic? <==>
      match a
      case Close(id) => id !in r.chans || r.chans[id].closed
      case Unbind(filter) => filter in r.topicChans && r.topicChans[filter] == NIL
      case Publish(topic, _, _) => MatcherPanics(r, topic)
      case _ => false
  {
    match a
    case Signal(e) => SignalledOpen(r, e, 0);
    case Publish(topic, e, order) => RoutingExact(r, topic, e, order);
    case _ =>
  }

  lemma StepValid(r: Registry, a: Action)
    requires Valid(r) && Ranged(r, a) && Step(r, a).Ok?
    ensures Valid(Step(r, a).registry)
  {
    match a
    case Create(n) => CreateValid(r, n);
    case Bind(filter, id) => BindValid(r, filter, id);
    case Close(id) => CloseValid(r, EventChannel(id, id));
    case Unbind(filter) =>
      if filter in r.topicChans {
        CloseValid(r, r.topicChans[filter]);
      }
    case Signal(e) => OfferedValid(r, set k | k in r.eventChans :: r.eventChans[k].channel, e);
    case Publish(topic, e, order) =>
      RoutingExact(r, topic, e, order);
      RoutedValid(r, topic, e, r.topicChans.Keys, 1);
    case Consume(id) =>
  }

  lemma StepNoNil(r: Registry, a: Action)
    requires Valid(r) && NoNil(r) && Polite(r, a) && Step(r, a).Ok?
    ensures NoNil(Step(r, a).registry)
  {
    if a.Publish? {
      RoutingExact(r, a.topic, a.e, a.order);
    }
  }

  // The registry over any sequence of creating, binding, closing, unsubscribing, signalling, routing and consuming,
  // until one panics: registered channels are open, the two maps share no channel, no channel serves two filters, and
  // every queue is first in first out and within its capacity.
  lemma {:induction false} RegistryInvariant(run: seq<Action>)
    requires Throughout(EMPTY, run, Ranged)
    ensures Run(EMPTY, run).Ok? ==> Valid(Run(EMPTY, run).registry)
  {
    if run != [] {
      var front := run[..|run| - 1];
      RegistryInvariant(front);
      if Run(EMPTY, run).Ok? {
        StepValid(Run(EMPTY, front).registry, run[|run| - 1]);
      }
    }
  }

  // A polite run never panics, so no channel is closed twice and none is sent to when closed; and no filter is left
  // bound to nil.
  lemma {:induction false} PoliteRunsOn(run: seq<Action>)
    requires Throughout(EMPTY, run, Polite)
    ensures Run(EMPTY, run).Ok? && Valid(Run(EMPTY, run).registry) && NoNil(Run(EMPTY, run).registry)
  {
    if run != [] {
      var front := run[..|run| - 1];
      PoliteRunsOn(front);
      var r, a := Run(EMPTY, front).registry, run[|run| - 1];
      PanicsExactly(r, a);
      StepValid(r, a);
      StepNoNil(r, a);
    }
  }

  // Delivery in a polite run: each listening channel once, unless it is full; no other channel.
  lemma PoliteDelivery(run: seq<Action>, topic: Str, e: Event, order: seq<Str>)
    requires Throughout(EMPTY, run, Polite)
    requires Run(EMPTY, run).Ok? && Polite(Run(EMPTY, run).registry, Publish(topic, e, order))
    ensures Run(EMPTY, run).Ok?
    ensures var r := Run(EMPTY, run).registry;
      && Step(r, Publish(topic, e, order)) == Ok(r.(chans := Heard(r, topic, e)))
      && (forall c <- r.chans :: Heard(r, topic, e)[c].queue
            == r.chans[c].queue + if Listens(r, topic, c) && |r.chans[c].queue| < r.chans[c].capacity then [e] else [])
  {
    PoliteRunsOn(run);
    ListenersOnce(Run(EMPTY, run).registry, topic, e, order);
  }

  // What no step takes back: a channel's history and its being closed; and a closed channel gets nothing more.
  ghost predicate Keeps(r: Registry, r': Registry, c: nat)
    requires c in r.chans
  {
    && c in r'.chans
    && r.chans[c].accepted <= r'.chans[c].accepted && r.chans[c].taken <= r'.chans[c].taken
    && (r.chans[c].closed ==> r'.chans[c].closed && r'.chans[c].accepted == r.chans[c].accepted)
  }

  lemma {:induction false} OfferTimesKeeps(ch: Chan, e: Event, n: nat)
    ensures var ch' := OfferTimes(ch, e, n);
      ch.accepted <= ch'.accepted && ch'.taken == ch.taken && ch'.closed == ch.closed
      && (n == 0 ==> ch' == ch)
  {
    if n > 0 {
      OfferTimesKeeps(ch, e, n - 1);
    }
  }

  lemma PublishKeeps(r: Registry, topic: Str, e: Event, order: seq<Str>, c: nat)
    requires Valid(r) && c in r.chans && Enumerates(order, r.topicChans) && Published(r, topic, e, order).Ok?
    ensures Keeps(r, Published(r, topic, e, order).registry, c)
  {
    RoutingExact(r, topic, e, order);
    OwnFilter(r, topic, c);
    OfferTimesKeeps(r.chans[c], e,
                    Times(r, topic, r.topicChans.Keys, c) + if c in r.eventChans then 1 else 0);
  }

  lemma StepKeeps(r: Registry, a: Action, c: nat)
    requires Valid(r) && Ranged(r, a) && Step(r, a).Ok? && c in r.chans
    ensures Keeps(r, Step(r, a).registry, c)
  {
    if a.Publish? {
      PublishKeeps(r, a.topic, a.e, a.order, c);
    }
  }

  // Over any run from a valid registry: what a channel has accepted and delivered stays so, in that order, and a
  // closed channel is not signalled on again.
  lemma {:induction false} RunKeeps(r: Registry, run: seq<Action>, c: nat)
    requires Valid(r) && Throughout(r, run, Ranged) && Run(r, run).Ok? && c in r.chans
    ensures Valid(Run(r, run).registry) && Keeps(r, Run(r, run).registry, c)
  {
    if run != [] {
      var front := run[..|run| - 1];
      RunKeeps(r, front, c);
      StepValid(Run(r, front).registry, run[|run| - 1]);
      StepKeeps(Run(r, front).registry, run[|run| - 1], c);
    }
  }

  // Unsubscribing closes the channels bound to the topics, so that by RunKeeps they receive nothing more.
  lemma {:induction false} UnsubscribeCloses(r: Registry, filters: seq<Str>, f: Str)
    requires Valid(r) && UnsubscribedAll(r, filters).Ok?
    ensures var r' := UnsubscribedAll(r, filters).registry;
      && Valid(r')
      && (forall c <- r.chans :: Keeps(r, r', c))
      && (f in filters ==> f !in r'.topicChans)
      && (f in r'.topicChans ==> f in r.topicChans && r'.topicChans[f] == r.topicChans[f])
      && (f in r.topicChans && f !in r'.topicChans ==>
            r.topicChans[f].channel in r'.chans && r'.chans[r.topicChans[f].channel].closed)
  {
    if filters != [] {
      var front, last := filters[..|filters| - 1], filters[|filters| - 1];
      UnsubscribeCloses(r, front, f);
      UnsubscribeCloses(r, front, last);
      var r1 := UnsubscribedAll(r, front).registry;
      StepValid(r1, Unbind(last));
      forall c <- r.chans ensures Keeps(r, UnsubscribedAll(r, filters).registry, c) {
        StepKeeps(r1, Unbind(last), c);
      }
    }
  }

  // Unsubscribing from several topics is a run as well.
  lemma {:induction false} UnsubscribedIsRun(r: Registry, filters: seq<Str>)
    ensures UnsubscribedAll(r, filters) == Run(r, Unbinds(filters))
  {
    if filters != [] {
      var front := filters[..|filters| - 1];
      UnsubscribedIsRun(r, front);
      assert Unbinds(filters)[..|front|] == Unbinds(front);
    }
  }

  function Unbinds(filters: seq<Str>): seq<Action> {
    seq(|filters|, i requires 0 <= i < |filters| => Unbind(filters[i]))
  }

  lemma GeneralStep(r: Registry, a: Action, c: nat)
    requires Valid(r) && Ranged(r, a) && Step(r, a).Ok? && c in r.chans
    ensures c in Step(r, a).registry.eventChans
      <==> c in r.eventChans && a != Close(c) && !(a.Bind? && a.id == c)
  {
    if a.Publish? {
      RoutingExact(r, a.topic, a.e, a.order);
    }
  }

  // Over any run a general channel stays one exactly until it is closed or bound to a topic.
  lemma {:induction false} GeneralUntil(r: Registry, run: seq<Action>, c: nat)
    requires Valid(r) && Throughout(r, run, Ranged) && Run(r, run).Ok? && c in r.eventChans
    ensures c in Run(r, run).registry.eventChans
      <==> forall a <- run :: a != Close(c) && !(a.Bind? && a.id == c)
  {
    hide Valid;
    hide Step;
    hide Keeps;
    assert c in r.chans by { GeneralOpen(r, c); }
    if run != [] {
      var front, a := run[..|run| - 1], run[|run| - 1];
      assert run == front + [a];
      GeneralUntil(r, front, c);
      RunKeeps(r, front, c);
      assert c in Run(r, front).registry.chans by { KeepsChannel(r, Run(r, front).registry, c); }
      GeneralStep(Run(r, front).registry, a, c);
    }
  }

  lemma GeneralOpen(r: Registry, c: nat)
    requires Valid(r) && c in r.eventChans
    ensures c in r.chans && !r.chans[c].closed
  {
  }

  lemma KeepsChannel(r: Registry, r': Registry, c: nat)
    requires c in r.chans && Keeps(r, r', c)
    ensures c in r'.chans
  {
  }

  predicate BoundTo(r: Registry, f: Str, c: nat) {
    f in r.topicChans && r.topicChans[f] == EventChannel(c, c)
  }

  lemma BoundStep(r: Registry, a: Action, f: Str, c: nat)
    requires Valid(r) && Ranged(r, a) && Step(r, a).Ok? && c in r.chans && c !in r.eventChans
    ensures BoundTo(Step(r, a).registry, f, c)
      <==> BoundTo(r, f, c) && a != Close(c) && a != Unbind(f) && !(a.Bind? && a.filter == f && a.id != 0)
  {
    if a.Publish? {
      RoutingExact(r, a.topic, a.e, a.order);
    }
  }

  // And a channel stays bound to its filter exactly until it is closed, or the filter unsubscribed or bound anew.
  lemma {:induction false} BoundUntil(r: Registry, run: seq<Action>, f: Str, c: nat)
    requires Valid(r) && Throughout(r, run, Ranged) && Run(r, run).Ok? && BoundTo(r, f, c) && c in r.chans
    ensures c !in Run(r, run).registry.eventChans
    ensures BoundTo(Run(r, run).registry, f, c)
      <==> forall a <- run :: a != Close(c) && a != Unbind(f) && !(a.Bind? && a.filter == f && a.id != 0)
  {
    hide Step;
    hide Keeps;
    if run != [] {
      var front, a := run[..|run| - 1], run[|run| - 1];
      assert run == front + [a];
      BoundUntil(r, front, f, c);
      RunKeeps(r, front, c);
      hide Valid;
      hide BoundTo;
      assert c in Run(r, front).registry.chans by { KeepsChannel(r, Run(r, front).registry, c); }
      GeneralStep(Run(r, front).registry, a, c);
      BoundStep(Run(r, front).registry, a, f, c);
    }
  }

  // A consumer gets what is queued, first things first.
  lemma {:induction false} ConsumesInOrder(r: Registry, c: nat, n: nat)
    requires Valid(r) && c in r.chans && n <= |r.chans[c].queue|
    ensures var r' := Run(r, seq(n, _ => Consume(c)));
      && r'.Ok? && r'.registry == r.(chans := r'.registry.chans) && c in r'.registry.chans
      && r'.registry.chans[c].taken == r.chans[c].taken + r.chans[c].queue[..n]
      && r'.registry.chans[c].queue == r.chans[c].queue[n..]
  {
    if n > 0 {
      ConsumesInOrder(r, c, n - 1);
      assert seq(n, _ => Consume(c))[..n - 1] == seq(n - 1, _ => Consume(c));
    }
  }

  // Channels are numbered from 1, in the order they are made.
  lemma {:induction false} ChannelIds(sizes: seq<int>)
    ensures var r := Run(EMPTY, seq(|sizes|, i requires 0 <= i < |sizes| => Create(sizes[i])));
      r.Ok? && r.registry.counter == |sizes| + 1 && forall id :: id in r.registry.eventChans <==> 1 <= id <= |sizes|
  {
    if sizes != [] {
      var front := sizes[..|sizes| - 1];
      ChannelIds(front);
      assert seq(|sizes|, i requires 0 <= i < |sizes| => Create(sizes[i]))[..|front|]
          == seq(|front|, i requires 0 <= i < |front| => Create(front[i]));
    }
  }

  // A new channel holds as many events as it was asked for, and at least one, before it misses any.
  lemma {:induction false} NewChannelHolds(r: Registry, n: int, e: Event, k: nat)
    ensures r.counter in Created(r, n).chans
    ensures var most := if n <= 0 then 1 else n;
      |OfferTimes(Created(r, n).chans[r.counter], e, k).queue| == if k <= most then k else most
    ensures OfferTimes(Created(r, n).chans[r.counter], e, k).capacity == Created(r, n).chans[r.counter].capacity
  {
    if k > 0 {
      NewChannelHolds(r, n, e, k - 1);
    }
  }

  // Binding one channel to two filters leaves the second bound to nil: a publish for it reaches the other general
  // channels twice, and unsubscribing from it panics.
  lemma BoundTwice(r: Registry, f: Str, g: Str, id: nat, other: nat, topic: Str, e: Event, order: seq<Str>)
    requires Valid(r) && id in r.eventChans && other in r.eventChans && id != other && f != g
    requires r.chans[other].capacity >= |r.chans[other].queue| + 2
    requires var r2 := Bound(Bound(r, f, id), g, id);
      Enumerates(order, r2.topicChans) && !MatcherPanics(r2, topic) && MatchOutcome(topic, g) == Matched
    ensures var r2 := Bound(Bound(r, f, id), g, id);
      && Unsubscribed(r2, g) == Panic
      && Published(r2, topic, e, order).Ok? && other in Published(r2, topic, e, order).registry.chans
      && Published(r2, topic, e, order).registry.chans[other].queue != r.chans[other].queue + [e]
  {
    var r1 := Bound(r, f, id);
    BindValid(r, f, id);
    BindValid(r1, g, id);
    var r2 := Bound(r1, g, id);
    assert r2.topicChans[g] == NIL;
    NilMatchRepeats(r2, topic, e, order, other);
  }

  lemma RouteSnoc(r: Registry, topic: Str, e: Event, order: seq<Str>, f: Str)
    ensures RouteIn(r, topic, e, order + [f])
         == match RouteIn(r, topic, e, order)
            case Panic => Panic
            case Ok(r1) => RouteOne(r1, topic, e, f)
    ensures Elements(order + [f]) == Elements(order) + {f}
    ensures NoRepeats(order) && f !in Elements(order) ==> NoRepeats(order + [f])
  {
    assert (order + [f])[..|order|] == order;
  }

  lemma SignalledValid(r: Registry, e: Event, channel: nat)
    requires Valid(r) && Signalled(r, e, channel).Ok?
    ensures Valid(Signalled(r, e, channel).registry)
  {
    OfferedValid(r, if channel == 0 then (set k | k in r.eventChans :: r.eventChans[k].channel) else {channel}, e);
  }

  // ---------- The client's maps ----------

  datatype Bindings = AllBound | Refused(code: byte) | BindPanic

  // What SUBSCRIBE asks for: a filter and the id of an event channel, or 0.
  type Topic = (Str, nat)

  // The actions of a SUBACK that accepts them all.
  function Binds(topics: seq<Topic>): seq<Action> {
    seq(|topics|, i requires 0 <= i < |topics| => Bind(topics[i].0, topics[i].1))
  }

  // Topic i has the final say about filter f.
  predicate Decides(topics: seq<Topic>, i: nat, f: Str) {
    i < |topics| && topics[i].0 == f && topics[i].1 != 0
    && forall j :: i < j < |topics| && topics[j].0 == f ==> topics[j].1 == 0
  }

  predicate Named(topics: seq<Topic>, id: nat) {
    id != 0 && exists t <- topics :: t.1 == id
  }

  // What topic i binds: its channel if it was a general one and no topic in front has taken it, else Go's zero value.
  function Given(r: Registry, topics: seq<Topic>, i: nat): EventChannel
    requires i < |topics|
  {
    var id := topics[i].1;
    if id in r.eventChans && !Named(topics[..i], id) then r.eventChans[id] else NIL
  }

  // What the topics leave bound: for each filter the last topic that names a channel decides. Every channel named stops
  // being a general one, and nothing else changes.
  ghost predicate BoundExactly(r: Registry, topics: seq<Topic>, r': Registry) {
    && r'.chans == r.chans && r'.counter == r.counter
    && (forall id :: id in r'.eventChans <==> id in r.eventChans && !Named(topics, id))
    && (forall id <- r'.eventChans :: r'.eventChans[id] == r.eventChans[id])
    && (forall i: nat, f :: Decides(topics, i, f) ==>
          f in r'.topicChans && r'.topicChans[f] == Given(r, topics, i))
    && (forall f | forall i: nat :: !Decides(topics, i, f) ::
          (f in r'.topicChans <==> f in r.topicChans)
          && (f in r.topicChans ==> r'.topicChans[f] == r.topicChans[f]))
  }

  lemma NamedSnoc(topics: seq<Topic>, t: Topic, id: nat)
    ensures Named(topics + [t], id) <==> Named(topics, id) || (id != 0 && t.1 == id)
  {
    if t.1 == id {
      assert (topics + [t])[|topics|] == t;
    }
    if Named(topics, id) {
      var u :| u in topics && u.1 == id;
      assert u in topics + [t];
    }
  }

  lemma DecidesSnoc(topics: seq<Topic>, t: Topic, i: nat, f: Str)
    ensures Decides(topics + [t], i, f) <==>
      if t.0 == f && t.1 != 0 then i == |topics| else Decides(topics, i, f)
  {
    var all := topics + [t];
    assert all[|topics|] == t;
    assert forall j: nat :: j < |topics| ==> all[j] == topics[j];
  }

  lemma GivenSnoc(r: Registry, topics: seq<Topic>, t: Topic, i: nat)
    requires i <= |topics|
    ensures Given(r, topics + [t], i) ==
      if i < |topics| then Given(r, topics, i)
      else if t.1 in r.eventChans && !Named(topics, t.1) then r.eventChans[t.1] else NIL
  {
    assert (topics + [t])[..i] == topics[..i];
    assert topics[..|topics|] == topics;
  }

  lemma BindSnoc(r: Registry, topics: seq<Topic>, r1: Registry, t: Topic)
    requires BoundExactly(r, topics, r1)
    ensures BoundExactly(r, topics + [t], Bound(r1, t.0, t.1))
  {
    var r2, all := Bound(r1, t.0, t.1), topics + [t];
    hide Named;
    hide Decides;
    forall id ensures Named(all, id) <==> Named(topics, id) || (id != 0 && t.1 == id) {
      NamedSnoc(topics, t, id);
    }
    forall i: nat, f ensures Decides(all, i, f) <==>
      if t.0 == f && t.1 != 0 then i == |topics| else Decides(topics, i, f)
    {
      DecidesSnoc(topics, t, i, f);
    }
    forall i: nat, f | Decides(all, i, f)
      ensures i < |all| && f in r2.topicChans && r2.topicChans[f] == Given(r, all, i)
    {
      DecidedTopic(all, i, f);
      GivenSnoc(r, topics, t, i);
      hide Given;
    }
    forall f | forall i: nat :: !Decides(all, i, f)
      ensures (f in r2.topicChans <==> f in r.topicChans) && (f in r.topicChans ==> r2.topicChans[f] == r.topicChans[f])
    {
      assert !Decides(all, |topics|, f);
      assert !(t.0 == f && t.1 != 0);
      assert forall i: nat :: Decides(topics, i, f) ==> Decides(all, i, f);
    }
  }

  lemma DecidedTopic(topics: seq<Topic>, i: nat, f: Str)
    requires Decides(topics, i, f)
    ensures i < |topics| && topics[i].0 == f && topics[i].1 != 0
  {
  }

  lemma BindsSnoc(r: Registry, topics: seq<Topic>, i: nat)
    requires i < |topics| && Run(r, Binds(topics[..i])).Ok?
    ensures Run(r, Binds(topics[..i + 1]))
         == Ok(Bound(Run(r, Binds(topics[..i])).registry, topics[i].0, topics[i].1))
  {
    assert Binds(topics[..i + 1])[..i] == Binds(topics[..i]);
  }

  // Binding topics one after the other.
  lemma {:induction false} BindsExactly(r: Registry, topics: seq<Topic>)
    ensures Run(r, Binds(topics)).Ok? && BoundExactly(r, topics, Run(r, Binds(topics)).registry)
  {
    if topics != [] {
      var front, t := topics[..|topics| - 1], topics[|topics| - 1];
      assert topics == front + [t];
      assert Binds(topics)[..|front|] == Binds(front);
      BindsExactly(r, front);
      BindSnoc(r, front, Run(r, Binds(front)).registry, t);
    }
  }

  // In particular, different filters bound to different general channels get the channel each was given.
  lemma BindsEach(r: Registry, topics: seq<Topic>, i: nat)
    requires i < |topics| && topics[i].1 != 0 && topics[i].1 in r.eventChans
    requires forall j: nat, k: nat | j < k < |topics| :: topics[j].0 != topics[k].0 && topics[j].1 != topics[k].1
    ensures var r' := Run(r, Binds(topics));
      && r'.Ok? && topics[i].0 in r'.registry.topicChans
      && r'.registry.topicChans[topics[i].0] == r.eventChans[topics[i].1]
      && topics[i].1 !in r'.registry.eventChans
  {
    BindsExactly(r, topics);
    assert Decides(topics, i, topics[i].0);
    assert Named(topics, topics[i].1);
    assert !Named(topics[..i], topics[i].1);
  }

  // The success codes in front of the first failure.
  function Successes(codes: seq<byte>): (n: nat)
    ensures n <= |codes| && (n < |codes| ==> codes[n] >= 0x80)
    ensures forall i :: 0 <= i < n ==> codes[i] < 0x80
  {
    if codes == [] || codes[0] >= 0x80 then 0 else 1 + Successes(codes[1..])
  }

  class EventRegistry {
    var chans: map<nat, Chan>
    var eventChans: map<nat, EventChannel>
    var topicChans: map<Str, EventChannel>
    var evChanIdCounter: nat

    ghost function Now(): Registry
      reads this
    {
      Registry(chans, eventChans, topicChans, evChanIdCounter)
    }

    constructor ()
      ensures Now() == EMPTY
    {
      chans, eventChans, topicChans, evChanIdCounter := map[], map[], map[], 1;
    }

    method CreateEventChannel(n: int) returns (result: EventChannel)
      modifies this
      ensures Now() == Created(old(Now()), n)
      ensures result == EventChannel(old(evChanIdCounter), old(evChanIdCounter))
    {
      var capacity := n;
      if capacity <= 0 {
        capacity := 1;
      }
      chans := chans[evChanIdCounter := Chan(capacity, [], false, [], [])];
      result := EventChannel(evChanIdCounter, evChanIdCounter);
      eventChans := eventChans[evChanIdCounter := result];
      evChanIdCounter := evChanIdCounter + 1;
    }

    // Says whether it returns, rather than panics.
    method CloseEventChannel(channel: EventChannel) returns (ok: bool)
      modifies this
      ensures ok <==> Closed(old(Now()), channel).Ok?
      ensures Now() == if ok then Closed(old(Now()), channel).registry else old(Now())
    {
      if channel.channel !in chans || chans[channel.channel].closed {
        return false;
      }
      chans := chans[channel.channel := chans[channel.channel].(closed := true)];
      eventChans := eventChans - {channel.id};
      ghost var before := topicChans;
      var todo := topicChans.Keys;
      while todo != {}
        invariant todo <= before.Keys
        invariant topicChans == Unbound(before, channel.id, before.Keys - todo)
        invariant chans == old(chans)[channel.channel := old(chans)[channel.channel].(closed := true)]
        invariant eventChans == old(eventChans) - {channel.id} && evChanIdCounter == old(evChanIdCounter)
      {
        var key :| key in todo;
        if topicChans[key].id == channel.id {
          topicChans := topicChans - {key};
        }
        todo := todo - {key};
      }
      return true;
    }

    // What Subscribe does with the reason codes of the SUBACK: it binds the topics in front of the first failure.
    method BindTopics(topics: seq<Topic>, codes: seq<byte>) returns (r: Bindings)
      modifies this
      ensures r == if Successes(codes) > |topics| then BindPanic
                   else if Successes(codes) < |codes| then Refused(codes[Successes(codes)])
                   else AllBound
      ensures var done := if r.BindPanic? then topics else topics[..Successes(codes)];
        Run(old(Now()), Binds(done)) == Ok(Now()) && BoundExactly(old(Now()), done, Now())
    {
      hide BoundExactly;
      BindsExactly(Now(), []);
      for i := 0 to |codes|
        invariant i <= |topics| && i <= Successes(codes)
        invariant Run(old(Now()), Binds(topics[..i])) == Ok(Now())
        invariant BoundExactly(old(Now()), topics[..i], Now())
      {
        if codes[i] >= 0x80 {
          return Refused(codes[i]);
        }
        if i >= |topics| {
          assert topics[..i] == topics;
          return BindPanic;
        }
        ghost var before := Now();
        var id := topics[i].1;
        if id != 0 {
          topicChans := topicChans[topics[i].0 := if id in eventChans then eventChans[id] else NIL];
          eventChans := eventChans - {id};
        }
        assert Now() == Bound(before, topics[i].0, id);
        BindsExactly(old(Now()), topics[..i + 1]);
        BindsSnoc(old(Now()), topics, i);
      }
      return AllBound;
    }

    method Unsubscribe(filters: seq<Str>) returns (ok: bool)
      modifies this
      ensures ok <==> UnsubscribedAll(old(Now()), filters).Ok?
      ensures ok ==> Now() == UnsubscribedAll(old(Now()), filters).registry
      ensures !ok ==> exists i | 0 <= i < |filters| ::
                        && UnsubscribedAll(old(Now()), filters[..i]) == Ok(Now())
                        && Unsubscribed(Now(), filters[i]) == Panic
    {
      for i := 0 to |filters|
        invariant UnsubscribedAll(old(Now()), filters[..i]) == Ok(Now())
      {
        assert filters[..i + 1][..i] == filters[..i];
        if filters[i] in topicChans {
          ok := CloseEventChannel(topicChans[filters[i]]);
          if !ok {
            PanicLasts(old(Now()), filters, i + 1);
            return false;
          }
        }
      }
      assert filters[..|filters|] == filters;
      return true;
    }

    // A send in a select with a default case; nil is never ready, and a closed channel would panic.
    method TrySend(channel: nat, e: Event)
      requires channel in chans ==> !chans[channel].closed
      modifies this`chans
      ensures chans == if channel in old(chans) then old(chans)[channel := Offer(old(chans)[channel], e)]
                       else old(chans)
    {
      if channel in chans {
        var ch := chans[channel];
        if |ch.queue| < ch.capacity {
          chans := chans[channel := ch.(queue := ch.queue + [e], accepted := ch.accepted + [e])];
        }
      }
    }

    method FanOut(e: Event)
      requires Valid(Now())
      modifies this`chans
      ensures chans == map c | c in old(chans) ::
                         if c in eventChans then Offer(old(chans)[c], e) else old(chans)[c]
    {
      hide Offer;
      var todo := eventChans.Keys;
      while todo != {}
        invariant todo <= eventChans.Keys
        invariant chans == map c | c in old(chans) ::
                    if c in eventChans && c !in todo then Offer(old(chans)[c], e) else old(chans)[c]
      {
        var k :| k in todo;
        assert eventChans[k].channel == k && !old(chans)[k].closed;
        TrySend(eventChans[k].channel, e);
        todo := todo - {k};
      }
    }

    // A channel picked before may have been closed in the meantime: the send panics then.
    method Signal(e: Event, channel: nat) returns (ok: bool)
      requires Valid(Now())
      requires channel == 0 || channel in chans
      modifies this`chans
      ensures ok <==> channel == 0 || !old(chans)[channel].closed
      ensures Signalled(old(Now()), e, channel) == if ok then Ok(Now()) else Panic
      ensures Valid(Now()) && (!ok ==> Now() == old(Now()))
    {
      if channel != 0 && chans[channel].closed {
        return false;
      }
      SignalledOpen(Now(), e, channel);
      SignalledValid(Now(), e, channel);
      if channel != 0 {
        TrySend(channel, e);
      } else {
        FanOut(e);
      }
      return true;
    }

    // Poll's PUBLISH case when nothing comes between its steps; order is the one in which Go ranges over the map.
    method Route(topic: Str, e: Event) returns (ok: bool, ghost order: seq<Str>)
      requires Valid(Now())
      modifies this`chans
      ensures ok <==> !MatcherPanics(old(Now()), topic)
      ensures ok ==> Enumerates(order, topicChans) && Published(old(Now()), topic, e, order) == Ok(Now())
    {
      hide Valid;
      hide Signalled;
      hide MatchOutcome;
      order := [];
      var todo := topicChans.Keys;
      while todo != {}
        invariant NoRepeats(order) && Elements(order) == topicChans.Keys - todo && todo <= topicChans.Keys
        invariant forall f <- order :: MatchOutcome(topic, f) != IndexPanic
        invariant RouteIn(old(Now()), topic, e, order) == Ok(Now())
        invariant Valid(Now())
      {
        var filter :| filter in todo;
        var outcome := MatchTopic(topic, filter);
        if outcome == IndexPanic {
          return false, order;
        }
        if outcome == Matched {
          MatchedOpen(Now(), filter);
          var sent := Signal(e, topicChans[filter].channel);
        }
        RouteSnoc(old(Now()), topic, e, order, filter);
        order := order + [filter];
        todo := todo - {filter};
      }
      var sent := Signal(e, 0);
      assert forall f <- topicChans :: f in Elements(order);
      return true, order;
    }

    // The user receives from a channel; an empty one would block or, when closed, yield nothing.
    method Consume(id: nat)
      modifies this`chans
      ensures Now() == Consumed(old(Now()), id)
    {
      if id in chans && chans[id].queue != [] {
        var ch := chans[id];
        chans := chans[id := ch.(queue := ch.queue[1..], taken := ch.taken + [ch.queue[0]])];
      }
    }
  }

  lemma {:induction false} PanicLasts(r: Registry, filters: seq<Str>, i: nat)
    requires i <= |filters| && UnsubscribedAll(r, filters[..i]).Panic?
    ensures UnsubscribedAll(r, filters).Panic?
    decreases |filters|
  {
    if i == |filters| {
      assert filters[..i] == filters;
    } else {
      assert filters[..|filters| - 1][..i] == filters[..i];
      PanicLasts(r, filters[..|filters| - 1], i);
    }
  }
}
