// One PUBLISH from the range over topicChans to the last send, step by step: Poll's steps alone are the routing that
// Events takes as one operation, and consumers may run between them. The same for the steps of Unsubscribe.
module EventDelivery {
  import opened Bits
  import opened Primitives
  import opened TopicMatch
  import opened Events
  import opened EventRaces

  // Steps that leave the two maps alone.
  predicate Quiet(w: World, a: Step) {
    PollStep(a) || a.ConsumeStep? || a.Unsubscribe? || a.Look? || a.Return?
  }

  predicate PollOnly(w: World, a: Step) {
    PollStep(a)
  }

  predicate Busy(w: World, a: Step) {
    !w.poll.Idle?
  }

  // The channel a step sends to, or 0.
  function Target(w: World, a: Step): nat {
    if a.SendHeld? || a.SendAimed? then InHand(w.poll) else 0
  }

  // How often channel c is sent to.
  function Sends(w: World, run: seq<Step>, c: nat): nat
    requires Possible(w, run)
  {
    if run == [] then 0
    else Sends(w, Front(run), c) + if Target(After(w, Front(run)).world, Last(run)) == c then 1 else 0
  }

  // How often a send to channel c finds room in it.
  function Gets(w: World, run: seq<Step>, c: nat): nat
    requires Possible(w, run)
  {
    if run == [] then 0
    else
      Gets(w, Front(run), c) +
      if Target(After(w, Front(run)).world, Last(run)) == c && HasRoom(After(w, Front(run)).world.registry, c) then 1
      else 0
  }

  predicate HasRoom(r: Registry, c: nat) {
    c in r.chans && |r.chans[c].queue| < r.chans[c].capacity
  }

  function Copies(e: Event, n: nat): (s: seq<Event>) {
    seq(n, _ => e)
  }

  // ---------- How far the routing has got ----------

  predicate RangeOn(r: Registry, topic: Str, e: Event, range: Range) {
    && range.topic == topic && range.e == e
    && range.visited <= r.topicChans.Keys && range.due == r.topicChans.Keys - range.visited
    && (forall f <- range.visited :: MatchOutcome(topic, f) != IndexPanic)
  }

  predicate BackOn(r: Registry, topic: Str, e: Event, back: Resume) {
    match back
    case Finished => forall f <- r.topicChans :: MatchOutcome(topic, f) != IndexPanic
    case Resumed(range) => RangeOn(r, topic, e, range)
  }

  predicate SweepOn(r: Registry, seen: set<nat>, left: set<nat>) {
    seen <= r.eventChans.Keys && left == r.eventChans.Keys - seen
  }

  predicate PollOn(r: Registry, topic: Str, e: Event, p: Poller) {
    match p
    case Idle => forall f <- r.topicChans :: MatchOutcome(topic, f) != IndexPanic
    case Ranging(range) => RangeOn(r, topic, e, range)
    case Holding(range, c) => RangeOn(r, topic, e, range) && (c == 0 || Open(r, c))
    case Fanning(e', back, seen, left) => e' == e && BackOn(r, topic, e, back) && SweepOn(r, seen, left)
    case Aiming(e', back, seen, left, c) =>
      e' == e && BackOn(r, topic, e, back) && SweepOn(r, seen, left) && c in seen && Open(r, c)
  }

  // The routing of a publish that began on r is under way, and the maps are still those of r.
  predicate Underway(r: Registry, topic: Str, e: Event, w: World) {
    && w.registry.eventChans == r.eventChans && w.registry.topicChans == r.topicChans
    && w.registry.counter == r.counter && w.registry.chans.Keys == r.chans.Keys
    && PollOn(r, topic, e, w.poll)
  }

  function Handled(r: Registry, p: Poller): set<Str> {
    match p
    case Ranging(range) => range.visited
    case Holding(range, _) => range.visited
    case Fanning(_, Resumed(range), _, _) => range.visited
    case Aiming(_, Resumed(range), _, _, _) => range.visited
    case _ => r.topicChans.Keys
  }

  // 1 for a general channel once the final turn has begun.
  function FinalTurn(r: Registry, p: Poller, c: nat): nat {
    match p
    case Idle => if c in r.eventChans then 1 else 0
    case Fanning(_, Finished, _, _) => if c in r.eventChans then 1 else 0
    case Aiming(_, Finished, _, _, _) => if c in r.eventChans then 1 else 0
    case _ => 0
  }

  // 1 while a send that is owed to c is still to come.
  function Pending(r: Registry, p: Poller, c: nat): nat {
    match p
    case Holding(_, ch) => if (if ch == 0 then c in r.eventChans else c == ch) then 1 else 0
    case Fanning(_, _, seen, _) => if c in r.eventChans && c !in seen then 1 else 0
    case Aiming(_, _, seen, _, ch) => if c in r.eventChans && (c !in seen || c == ch) then 1 else 0
    case _ => 0
  }

  // The sends to c that are done or still to come.
  function Due(r: Registry, topic: Str, p: Poller, c: nat): nat {
    Times(r, topic, Handled(r, p), c) + FinalTurn(r, p, c)
  }

  // A step is counted for c exactly if it sends to c.
  predicate Advances(r: Registry, topic: Str, e: Event, w: World, a: Step, w': World, c: nat) {
    && Underway(r, topic, e, w')
    && Due(r, topic, w'.poll, c) + Pending(r, w.poll, c) ==
       Due(r, topic, w.poll, c) + Pending(r, w'.poll, c) + if Target(w, a) == c then 1 else 0
  }

  lemma PickAdvances(r: Registry, topic: Str, e: Event, w: World, a: Step, c: nat)
    requires Valid(r) && Underway(r, topic, e, w) && Enabled(w, a) && Move(w, a).Runs? && c != 0 && a.Pick?
    ensures Advances(r, topic, e, w, a, Move(w, a).world, c)
  {
    TimesMore(r, topic, w.poll.range.visited, a.filter, c);
    MatchedOpen(r, a.filter);
    hide Valid;
    hide Times;
    hide MatchOutcome;
  }

  // What a send does to the channels, and where it leaves Poll.
  lemma Sent(w: World, a: Step)
    requires Sane(w) && Enabled(w, a) && Move(w, a).Runs? && (a.SendHeld? || a.SendAimed?)
    ensures var w', c := Move(w, a).world, InHand(w.poll);
      if c == 0 then w' == Fan(w, w.poll.range.e, Resumed(w.poll.range))
      else
        && c != 0
        && w'.registry == w.registry.(chans := w.registry.chans[c := Offer(w.registry.chans[c],
                                                 if a.SendHeld? then w.poll.range.e else w.poll.e)])
        && w'.poll == if a.SendHeld? then Ranging(w.poll.range)
                      else Fanning(w.poll.e, w.poll.back, w.poll.seen, w.poll.left)
  {
    if a.SendHeld? && w.poll.channel != 0 {
      OfferedKeys(w.registry, w.poll.channel, w.poll.range.e);
    } else if a.SendAimed? {
      OfferedKeys(w.registry, w.poll.channel, w.poll.e);
    }
  }

  lemma HeldAdvances(r: Registry, topic: Str, e: Event, w: World, a: Step, c: nat)
    requires Valid(r) && Underway(r, topic, e, w) && Enabled(w, a) && Sane(w) && Move(w, a).Runs? && c != 0
    requires a.SendHeld?
    ensures Advances(r, topic, e, w, a, Move(w, a).world, c)
  {
    Sent(w, a);
    hide Valid;
    hide Times;
    hide MatchOutcome;
    hide Move;
    hide Sane;
    hide RangeOn;
    hide Offer;
  }

  lemma AimedAdvances(r: Registry, topic: Str, e: Event, w: World, a: Step, c: nat)
    requires Valid(r) && Underway(r, topic, e, w) && Enabled(w, a) && Sane(w) && Move(w, a).Runs? && c != 0
    requires a.SendAimed?
    ensures Advances(r, topic, e, w, a, Move(w, a).world, c)
  {
    Sent(w, a);
    NilUnknown(w.registry);
    hide Valid;
    hide Times;
    hide MatchOutcome;
    hide Move;
    hide Sane;
    hide BackOn;
    hide Offer;
  }

  lemma AimAdvances(r: Registry, topic: Str, e: Event, w: World, a: Step, c: nat)
    requires Valid(r) && Underway(r, topic, e, w) && Enabled(w, a) && c != 0 && a.Aim?
    ensures Advances(r, topic, e, w, a, Move(w, a).world, c)
  {
    assert r.eventChans[a.key].channel == a.key && Open(r, a.key);
    hide Valid;
    hide Times;
    hide MatchOutcome;
    hide BackOn;
  }

  lemma AllVisited(r: Registry, topic: Str, e: Event, range: Range)
    requires RangeOn(r, topic, e, range) && range.due == {}
    ensures range.visited == r.topicChans.Keys
    ensures forall f <- r.topicChans :: MatchOutcome(topic, f) != IndexPanic
  {
    forall f <- r.topicChans ensures f in range.visited {
      assert f !in r.topicChans.Keys - range.visited;
    }
  }

  lemma EndRangeAdvances(r: Registry, topic: Str, e: Event, w: World, a: Step, c: nat)
    requires Valid(r) && Underway(r, topic, e, w) && Enabled(w, a) && c != 0 && a.EndRange?
    ensures Advances(r, topic, e, w, a, Move(w, a).world, c)
  {
    AllVisited(r, topic, e, w.poll.range);
    hide Valid;
    hide Times;
    hide MatchOutcome;
    hide RangeOn;
  }

  lemma AllSeen(r: Registry, seen: set<nat>, c: nat)
    requires r.eventChans.Keys - seen == {} && c in r.eventChans
    ensures c in seen
  {
    assert c !in r.eventChans.Keys - seen;
  }

  lemma EndFanAdvances(r: Registry, topic: Str, e: Event, w: World, a: Step, c: nat)
    requires Valid(r) && Underway(r, topic, e, w) && Enabled(w, a) && c != 0 && a.EndFan?
    ensures Advances(r, topic, e, w, a, Move(w, a).world, c)
  {
    if c in r.eventChans {
      AllSeen(r, w.poll.seen, c);
    }
    hide Valid;
    hide Times;
    hide MatchOutcome;
    hide RangeOn;
  }

  // The maps being what they were, nothing leaves what is due.
  lemma TrimNothing(r: Registry, topic: Str, e: Event, w: World, reg: Registry)
    requires Underway(r, topic, e, w) && reg.topicChans == r.topicChans && reg.eventChans == r.eventChans
    ensures Trim(w.poll, reg) == w.poll
  {
    hide MatchOutcome;
  }

  lemma ConsumeAdvances(r: Registry, topic: Str, e: Event, w: World, a: Step, c: nat)
    requires Valid(r) && Underway(r, topic, e, w) && Enabled(w, a) && c != 0 && a.ConsumeStep?
    ensures Advances(r, topic, e, w, a, Move(w, a).world, c)
  {
    TrimNothing(r, topic, e, w, Consumed(w.registry, a.id));
    hide Trim;
    hide Take;
    hide Times;
    hide Valid;
    hide MatchOutcome;
  }

  lemma OtherAdvances(r: Registry, topic: Str, e: Event, w: World, a: Step, c: nat)
    requires Valid(r) && Underway(r, topic, e, w) && Enabled(w, a) && c != 0
    requires a.Unsubscribe? || a.Look? || a.Return?
    ensures Advances(r, topic, e, w, a, Move(w, a).world, c)
  {
    hide Valid;
    hide Times;
    hide MatchOutcome;
    hide Handled;
  }

  lemma QuietAdvances(r: Registry, topic: Str, e: Event, w: World, a: Step, c: nat)
    requires Valid(r) && Underway(r, topic, e, w) && Enabled(w, a) && Sane(w) && Move(w, a).Runs? && c != 0
    requires Quiet(w, a) && Busy(w, a)
    ensures Advances(r, topic, e, w, a, Move(w, a).world, c)
  {
    hide Sane;
    hide Valid;
    hide Underway;
    hide Advances;
    hide Move;
    if a.Pick? {
      PickAdvances(r, topic, e, w, a, c);
    } else if a.SendHeld? {
      HeldAdvances(r, topic, e, w, a, c);
    } else if a.SendAimed? {
      AimedAdvances(r, topic, e, w, a, c);
    } else if a.Aim? {
      AimAdvances(r, topic, e, w, a, c);
    } else if a.EndRange? {
      EndRangeAdvances(r, topic, e, w, a, c);
    } else if a.EndFan? {
      EndFanAdvances(r, topic, e, w, a, c);
    } else if a.ConsumeStep? {
      ConsumeAdvances(r, topic, e, w, a, c);
    } else {
      OtherAdvances(r, topic, e, w, a, c);
    }
  }

  // Poll is never stuck in a routing: some step of its own is possible, whatever the others have done.
  lemma PollGoesOn(r: Registry, topic: Str, e: Event, w: World)
    requires Underway(r, topic, e, w) && Busy(w, Return)
    ensures exists a: Step :: PollStep(a) && Enabled(w, a)
  {
    match w.poll
    case Ranging(range) =>
      if f :| f in range.due {
        assert Enabled(w, Pick(f));
      } else {
        assert range.due == {};
        assert Enabled(w, EndRange);
      }
    case Holding(_, _) => assert Enabled(w, SendHeld);
    case Fanning(_, _, seen, left) =>
      if k :| k in left {
        assert Enabled(w, Aim(k));
      } else {
        assert left == {};
        assert Enabled(w, EndFan);
      }
    case Aiming(_, _, _, _, _) => assert Enabled(w, SendAimed);
  }

  // ---------- Whole routings ----------

  // A publish comes in.
  function Begun(w: World, topic: Str, e: Event): World
    requires w.poll.Idle?
  {
    Move(w, Route(topic, e)).world
  }

  // A routing that has begun in w, with nothing but quiet steps since, and not over before the last of them.
  ghost predicate Routing(w: World, topic: Str, e: Event, run: seq<Step>) {
    && Sane(w) && w.poll.Idle?
    && var w1 := Begun(w, topic, e);
      Possible(w1, run)
      && EventRaces.Throughout(w1, run, Quiet) && EventRaces.Throughout(w1, run, Busy)
  }

  lemma RoutingBegins(w: World, topic: Str, e: Event, c: nat)
    requires Sane(w) && w.poll.Idle? && c != 0
    ensures var w1 := Begun(w, topic, e);
      Sane(w1) && Underway(w.registry, topic, e, w1)
      && Due(w.registry, topic, w1.poll, c) == 0 && Pending(w.registry, w1.poll, c) == 0
  {
    SaneStep(w, Route(topic, e));
    assert Hits(w.registry, topic, {}, c) == {};
    assert Hits(w.registry, topic, {}, 0) == {};
  }

  // At every point: what is due to a channel has been sent to it or is still to be sent.
  lemma {:induction false} SendsAlong(w: World, topic: Str, e: Event, run: seq<Step>, c: nat)
    requires Routing(w, topic, e, run) && c != 0
    requires After(Begun(w, topic, e), run).Runs?
    ensures var w1 := Begun(w, topic, e);
      var w' := After(w1, run).world;
      Sane(w') && Underway(w.registry, topic, e, w')
      && Due(w.registry, topic, w'.poll, c) == Sends(w1, run, c) + Pending(w.registry, w'.poll, c)
    decreases |run|
  {
    RoutingBegins(w, topic, e, c);
    hide Sane;
    hide Underway;
    hide Move;
    hide Quiet;
    hide Due;
    hide Pending;
    if run != [] {
      var w1 := Begun(w, topic, e);
      SendsAlong(w, topic, e, Front(run), c);
      var before := After(w1, Front(run)).world;
      SaneStep(before, Last(run));
      QuietAdvances(w.registry, topic, e, before, Last(run), c);
    }
  }

  lemma QuietChans(r: Registry, topic: Str, e: Event, w: World, a: Step, c: nat)
    requires Sane(w) && Underway(r, topic, e, w) && Enabled(w, a) && Quiet(w, a) && Busy(w, a) && Move(w, a).Runs?
    requires c in w.registry.chans
    ensures var ch, chans := w.registry.chans[c], Move(w, a).world.registry.chans;
      c in chans && chans[c] ==
        if Target(w, a) == c then Offer(ch, e) else if a == ConsumeStep(c) then Take(ch) else ch
  {
    NilUnknown(w.registry);
    if a.SendHeld? || a.SendAimed? {
      Sent(w, a);
    }
    hide Valid;
    hide Offer;
    hide Take;
    hide RangeOn;
    hide MatchOutcome;
  }

  // A step adds a copy to what a channel has accepted exactly if it sends to it and finds room.
  lemma QuietAccepts(r: Registry, topic: Str, e: Event, w: World, a: Step, c: nat)
    requires Sane(w) && Underway(r, topic, e, w) && Enabled(w, a) && Quiet(w, a) && Busy(w, a) && Move(w, a).Runs?
    requires c in w.registry.chans
    ensures var ch, chans := w.registry.chans[c], Move(w, a).world.registry.chans;
      && c in chans && chans[c].closed == ch.closed
      && chans[c].accepted == ch.accepted + if Target(w, a) == c && HasRoom(w.registry, c) then [e] else []
  {
    QuietChans(r, topic, e, w, a, c);
    hide Sane;
    hide Underway;
    hide Quiet;
    hide Move;
  }

  // Consumers or not: a channel accepts one copy of the event for every send that finds room.
  lemma {:induction false} AcceptedAlong(w: World, topic: Str, e: Event, run: seq<Step>, c: nat)
    requires Routing(w, topic, e, run) && c in w.registry.chans
    requires After(Begun(w, topic, e), run).Runs?
    ensures var w1 := Begun(w, topic, e);
      var r' := After(w1, run).world.registry;
      && c in r'.chans && r'.chans[c].closed == w.registry.chans[c].closed
      && r'.chans[c].accepted == w.registry.chans[c].accepted + Copies(e, Gets(w1, run, c))
      && Gets(w1, run, c) <= Sends(w1, run, c)
    decreases |run|
  {
    var w1 := Begun(w, topic, e);
    if run == [] {
      return;
    }
    hide Sane;
    hide Underway;
    hide Move;
    hide Quiet;
    hide Target;
    hide HasRoom;
    AcceptedAlong(w, topic, e, Front(run), c);
    SendsAlong(w, topic, e, Front(run), c);
    QuietAccepts(w.registry, topic, e, After(w1, Front(run)).world, Last(run), c);
    var n := Gets(w1, Front(run), c);
    assert Copies(e, n + 1) == Copies(e, n) + [e];
  }

  // However consumers come between: when the routing is over, a channel has been sent the event as often as it is
  // entitled to, and has accepted a copy for each time it had room; without a nil binding that matches, the channels
  // that listen have been sent it once.
  lemma DeliveryExact(w: World, topic: Str, e: Event, run: seq<Step>, c: nat)
    requires Routing(w, topic, e, run) && c in w.registry.chans
    requires var w1 := Begun(w, topic, e);
      After(w1, run).Runs? && After(w1, run).world.poll.Idle?
    ensures !MatcherPanics(w.registry, topic)
    ensures var w1, r := Begun(w, topic, e), w.registry;
      var r' := After(w1, run).world.registry;
      && Sends(w1, run, c) == Times(r, topic, r.topicChans.Keys, c) + (if c in r.eventChans then 1 else 0)
      && (!NilMatches(r, topic) ==> Sends(w1, run, c) == if Listens(r, topic, c) then 1 else 0)
      && c in r'.chans && r'.chans[c].accepted == r.chans[c].accepted + Copies(e, Gets(w1, run, c))
      && Gets(w1, run, c) <= Sends(w1, run, c)
  {
    SendsAlong(w, topic, e, run, c);
    AcceptedAlong(w, topic, e, run, c);
    if !NilMatches(w.registry, topic) {
      TimesOnce(w.registry, topic, c);
    }
    hide Times;
    hide Valid;
    hide Listens;
    hide NilMatches;
    hide MatchOutcome;
  }

  lemma HeldKnown(r: Registry, topic: Str, e: Event, w: World)
    requires Underway(r, topic, e, w) && InHand(w.poll) != 0
    ensures Open(r, InHand(w.poll))
  {
  }

  lemma CrashedAt(r: Registry, topic: Str, e: Event, w: World, a: Step)
    requires Valid(r) && Sane(w) && Underway(r, topic, e, w) && Enabled(w, a) && Quiet(w, a) && Busy(w, a)
    requires Move(w, a).Crash?
    requires InHand(w.poll) != 0 ==> Open(w.registry, InHand(w.poll))
    ensures MatcherPanics(r, topic)
  {
    CrashesExactly(w, a);
    hide Valid;
  }

  // A routing panics only if the matcher does.
  lemma RoutingCrashes(w: World, topic: Str, e: Event, run: seq<Step>)
    requires Routing(w, topic, e, run) && After(Begun(w, topic, e), run).Crash?
    ensures MatcherPanics(w.registry, topic)
  {
    var w1 := Begun(w, topic, e);
    var before := After(w1, Front(run)).world;
    SendsAlong(w, topic, e, Front(run), 1);
    var c := InHand(before.poll);
    if c != 0 {
      HeldKnown(w.registry, topic, e, before);
      AcceptedAlong(w, topic, e, Front(run), c);
    }
    hide Sane;
    hide Valid;
    hide Underway;
    hide Move;
    hide MatcherPanics;
    CrashedAt(w.registry, topic, e, After(w1, Front(run)).world, Last(run));
  }

  lemma {:induction false} AloneAlong(w: World, topic: Str, e: Event, run: seq<Step>, c: nat)
    requires Routing(w, topic, e, run) && c in w.registry.chans
    requires EventRaces.Throughout(Begun(w, topic, e), run, PollOnly)
    requires After(Begun(w, topic, e), run).Runs?
    ensures var w1 := Begun(w, topic, e);
      var r' := After(w1, run).world.registry;
      c in r'.chans && r'.chans[c] == OfferTimes(w.registry.chans[c], e, Sends(w1, run, c))
    decreases |run|
  {
    var w1 := Begun(w, topic, e);
    if run == [] {
      return;
    }
    hide Sane;
    hide Underway;
    hide Move;
    hide Offer;
    AloneAlong(w, topic, e, Front(run), c);
    SendsAlong(w, topic, e, Front(run), c);
    QuietChans(w.registry, topic, e, After(w1, Front(run)).world, Last(run), c);
  }

  ghost predicate Alone(w: World, topic: Str, e: Event, run: seq<Step>) {
    && Routing(w, topic, e, run)
    && EventRaces.Throughout(Begun(w, topic, e), run, PollOnly)
  }

  lemma AloneChan(w: World, topic: Str, e: Event, run: seq<Step>, c: nat)
    requires Alone(w, topic, e, run) && c in w.registry.chans
    requires var end := After(Begun(w, topic, e), run);
      end.Runs? && end.world.poll.Idle?
    ensures var r := w.registry;
      var chans := After(Begun(w, topic, e), run).world.registry.chans;
      c in chans && chans[c] == RoutedChans(r, topic, e, r.topicChans.Keys, 1)[c]
  {
    hide Times;
    hide Sane;
    hide Move;
    hide OfferTimes;
    hide Begun;
    hide NilMatches;
    hide Listens;
    hide MatcherPanics;
    hide Copies;
    hide Possible;
    hide EventRaces.Throughout;
    hide Sends;
    hide Gets;
    DeliveryExact(w, topic, e, run, c);
    AloneAlong(w, topic, e, run, c);
  }

  lemma IdleAgain(w: World, topic: Str, e: Event, run: seq<Step>)
    requires Routing(w, topic, e, run)
    requires var end := After(Begun(w, topic, e), run);
      end.Runs? && end.world.poll.Idle?
    ensures !MatcherPanics(w.registry, topic)
    ensures var r := After(Begun(w, topic, e), run).world.registry;
      r == w.registry.(chans := r.chans) && r.chans.Keys == w.registry.chans.Keys
  {
    SendsAlong(w, topic, e, run, 1);
    hide Sane;
    hide Move;
    hide MatchOutcome;
  }

  // Poll's steps with nothing between them are the one operation of Events, in whatever order they pick the filters.
  lemma RoutingRefines(w: World, topic: Str, e: Event, run: seq<Step>, order: seq<Str>)
    requires Alone(w, topic, e, run) && Enumerates(order, w.registry.topicChans)
    ensures var end := After(Begun(w, topic, e), run);
      match end
      case Crash => Published(w.registry, topic, e, order) == Panic
      case Runs(w') => w'.poll.Idle? ==> Published(w.registry, topic, e, order) == Ok(w'.registry)
  {
    hide Times;
    hide OfferTimes;
    hide Begun;
    hide Published;
    hide MatcherPanics;
    RoutingExact(w.registry, topic, e, order);
    var end := After(Begun(w, topic, e), run);
    if end.Crash? {
      RoutingCrashes(w, topic, e, run);
    } else if end.world.poll.Idle? {
      IdleAgain(w, topic, e, run);
      var routed := RoutedChans(w.registry, topic, e, w.registry.topicChans.Keys, 1);
      forall c <- w.registry.chans ensures end.world.registry.chans[c] == routed[c] {
        AloneChan(w, topic, e, run, c);
      }
      assert end.world.registry.chans == routed;
    }
  }

  // ---------- A routing ends ----------

  function RangeWork(range: Range, n: nat): nat {
    |range.due| * (2 * n + 5) + 2 * n + 3
  }

  function BackWork(back: Resume, n: nat): nat {
    match back
    case Finished => 0
    case Resumed(range) => RangeWork(range, n)
  }

  // A bound on the steps Poll still has to take, n being the number of general channels.
  function Work(p: Poller, n: nat): nat {
    match p
    case Idle => 0
    case Ranging(range) => RangeWork(range, n)
    case Holding(range, _) => RangeWork(range, n) + 2 * n + 4
    case Fanning(_, back, _, left) => BackWork(back, n) + 2 * |left| + 1
    case Aiming(_, back, _, left, _) => BackWork(back, n) + 2 * |left| + 2
  }

  lemma LessDue(range: Range, f: Str, n: nat)
    requires f in range.due
    ensures RangeWork(range, n)
         == RangeWork(range.(visited := range.visited + {f}, due := range.due - {f}), n) + 2 * n + 5
  {
    assert |range.due - {f}| == |range.due| - 1;
  }

  lemma PickWorks(r: Registry, topic: Str, e: Event, w: World, a: Step)
    requires Underway(r, topic, e, w) && Enabled(w, a) && a.Pick? && Move(w, a).Runs?
    ensures Work(Move(w, a).world.poll, |r.eventChans|) < Work(w.poll, |r.eventChans|)
  {
    LessDue(w.poll.range, a.filter, |r.eventChans|);
    hide RangeWork;
    hide MatchOutcome;
  }

  lemma HeldWorks(r: Registry, topic: Str, e: Event, w: World, a: Step)
    requires Underway(r, topic, e, w) && Sane(w) && Enabled(w, a) && Move(w, a).Runs? && a.SendHeld?
    ensures Work(Move(w, a).world.poll, |r.eventChans|) < Work(w.poll, |r.eventChans|)
  {
    Sent(w, a);
    hide RangeWork;
    hide Sane;
    hide Move;
    hide Offer;
    hide RangeOn;
    assert |w.registry.eventChans.Keys| == |w.registry.eventChans|;
  }

  lemma AimedWorks(r: Registry, w: World, a: Step)
    requires Sane(w) && Enabled(w, a) && Move(w, a).Runs? && a.SendAimed?
    ensures Work(Move(w, a).world.poll, |r.eventChans|) < Work(w.poll, |r.eventChans|)
  {
    Sent(w, a);
    NilUnknown(w.registry);
    hide BackWork;
    hide Sane;
    hide Move;
    hide Offer;
  }

  lemma AimWorks(r: Registry, topic: Str, e: Event, w: World, a: Step)
    requires Underway(r, topic, e, w) && Enabled(w, a) && a.Aim?
    ensures Work(Move(w, a).world.poll, |r.eventChans|) < Work(w.poll, |r.eventChans|)
  {
    assert a.key in w.poll.left;
    assert |w.poll.left - {a.key}| == |w.poll.left| - 1;
    hide BackWork;
    hide BackOn;
  }

  lemma EndWorks(r: Registry, topic: Str, e: Event, w: World, a: Step)
    requires Underway(r, topic, e, w) && Enabled(w, a) && (a.EndRange? || a.EndFan?)
    ensures Work(Move(w, a).world.poll, |r.eventChans|) < Work(w.poll, |r.eventChans|)
  {
    hide MatchOutcome;
    hide RangeOn;
    hide SweepOn;
    assert |w.registry.eventChans.Keys| == |w.registry.eventChans|;
  }

  lemma PollWorks(r: Registry, topic: Str, e: Event, w: World, a: Step)
    requires Underway(r, topic, e, w) && Sane(w) && Enabled(w, a) && Move(w, a).Runs? && PollStep(a) && Busy(w, a)
    ensures Work(Move(w, a).world.poll, |r.eventChans|) < Work(w.poll, |r.eventChans|)
  {
    hide Underway;
    hide Move;
    hide Work;
    hide Sane;
    if a.Pick? {
      PickWorks(r, topic, e, w, a);
    } else if a.SendHeld? {
      HeldWorks(r, topic, e, w, a);
    } else if a.SendAimed? {
      AimedWorks(r, w, a);
    } else if a.Aim? {
      AimWorks(r, topic, e, w, a);
    } else {
      EndWorks(r, topic, e, w, a);
    }
  }

  lemma RunsOn(w: World, topic: Str, e: Event, run: seq<Step>, a: Step)
    requires Alone(w, topic, e, run) && After(Begun(w, topic, e), run).Runs?
    requires var w' := After(Begun(w, topic, e), run).world;
      Enabled(w', a) && PollStep(a) && Busy(w', a)
    ensures Alone(w, topic, e, run + [a])
    ensures After(Begun(w, topic, e), run + [a]) == Move(After(Begun(w, topic, e), run).world, a)
  {
    hide Sane;
    hide Move;
    assert Front(run + [a]) == run;
  }

  // The routing is over, or has panicked in the matcher.
  ghost predicate Ended(w: World, topic: Str, e: Event, run: seq<Step>) {
    && Alone(w, topic, e, run)
    && var end := After(Begun(w, topic, e), run);
      if MatcherPanics(w.registry, topic) then end.Crash? else end.Runs? && end.world.poll.Idle?
  }

  lemma EndedNow(w: World, topic: Str, e: Event, run: seq<Step>)
    requires Alone(w, topic, e, run)
    requires var end := After(Begun(w, topic, e), run);
      end.Crash? || end.world.poll.Idle?
    ensures Ended(w, topic, e, run)
  {
    hide Sane;
    hide Begun;
    if After(Begun(w, topic, e), run).Crash? {
      RoutingCrashes(w, topic, e, run);
    } else {
      IdleAgain(w, topic, e, run);
    }
  }

  // However far it has got, a routing by Poll alone can be taken to its end.
  lemma {:induction false} RoutingEnds(w: World, topic: Str, e: Event, run: seq<Step>)
    requires Alone(w, topic, e, run) && After(Begun(w, topic, e), run).Runs?
    ensures exists more: seq<Step> :: Ended(w, topic, e, run + more)
    decreases Work(After(Begun(w, topic, e), run).world.poll, |w.registry.eventChans|)
  {
    hide Sane;
    hide Begun;
    hide Work;
    hide Move;
    hide Enabled;
    hide Underway;
    hide Ended;
    hide Possible;
    hide EventRaces.Throughout;
    hide Sends;
    hide Due;
    hide Pending;
    hide MatcherPanics;
    var w' := After(Begun(w, topic, e), run).world;
    SendsAlong(w, topic, e, run, 1);
    if w'.poll.Idle? {
      EndedNow(w, topic, e, run);
      assert run + [] == run;
    } else {
      PollGoesOn(w.registry, topic, e, w');
      var a :| PollStep(a) && Enabled(w', a);
      RunsOn(w, topic, e, run, a);
      if Move(w', a).Crash? {
        EndedNow(w, topic, e, run + [a]);
      } else {
        PollWorks(w.registry, topic, e, w', a);
        RoutingEnds(w, topic, e, run + [a]);
        var more :| Ended(w, topic, e, run + [a] + more);
        assert run + [a] + more == run + ([a] + more);
      }
    }
  }

  // ---------- Unsubscribe ----------

  predicate UnsubscribeOnly(w: World, a: Step) {
    a.Look? || a.CloseHeld? || a.Return?
  }

  // How far a call of Unsubscribe that began on r has got, when nothing comes between its steps.
  predicate Unsubscribing(r: Registry, filters: seq<Str>, w: World) {
    var n := |filters|;
    match w.unsub
    case Absent => UnsubscribedAll(r, filters) == Ok(w.registry)
    case Looking(todo) =>
      |todo| <= n && todo == filters[n - |todo|..] && UnsubscribedAll(r, filters[..n - |todo|]) == Ok(w.registry)
    case Closing(todo, held) =>
      && |todo| < n && todo == filters[n - |todo|..]
      && UnsubscribedAll(r, filters[..n - |todo| - 1]) == Ok(w.registry)
      && filters[n - |todo| - 1] in w.registry.topicChans
      && held == w.registry.topicChans[filters[n - |todo| - 1]]
  }

  lemma OneMore(r: Registry, filters: seq<Str>, k: nat)
    requires k < |filters| && UnsubscribedAll(r, filters[..k]).Ok?
    ensures UnsubscribedAll(r, filters[..k + 1]) == Unsubscribed(UnsubscribedAll(r, filters[..k]).registry, filters[k])
  {
    assert filters[..k + 1][..k] == filters[..k];
  }

  lemma UnsubscribeStep(r: Registry, filters: seq<Str>, w: World, a: Step)
    requires Unsubscribing(r, filters, w) && Enabled(w, a) && UnsubscribeOnly(w, a)
    ensures match Move(w, a)
      case Crash => UnsubscribedAll(r, filters) == Panic
      case Runs(w') => Unsubscribing(r, filters, w')
  {
    hide UnsubscribedAll;
    hide Closed;
    var n := |filters|;
    if a.Look? {
      var k := n - |w.unsub.todo|;
      assert w.unsub.todo[0] == filters[k] && w.unsub.todo[1..] == filters[k + 1..];
      OneMore(r, filters, k);
    } else if a.CloseHeld? {
      var k := n - |w.unsub.todo| - 1;
      OneMore(r, filters, k);
      if Move(w, a).Crash? {
        PanicLasts(r, filters, k + 1);
      }
    } else {
      assert filters[..n] == filters;
    }
  }

  function Asked(w: World, filters: seq<Str>): World
    requires w.unsub.Absent?
  {
    Move(w, Unsubscribe(filters)).world
  }

  // The steps of Unsubscribe with nothing between them close the channels as the operation of Events does, or panic
  // where it does.
  lemma {:induction false} UnsubscribeRefines(w: World, filters: seq<Str>, run: seq<Step>)
    requires w.unsub.Absent? && Possible(Asked(w, filters), run)
    requires EventRaces.Throughout(Asked(w, filters), run, UnsubscribeOnly)
    ensures match After(Asked(w, filters), run)
      case Crash => UnsubscribedAll(w.registry, filters) == Panic
      case Runs(w') =>
        Unsubscribing(w.registry, filters, w')
        && (w'.unsub.Absent? ==> UnsubscribedAll(w.registry, filters) == Ok(w'.registry))
    decreases |run|
  {
    if run == [] {
      assert filters[0..] == filters && filters[..0] == [];
    } else {
      UnsubscribeRefines(w, filters, Front(run));
      UnsubscribeStep(w.registry, filters, After(Asked(w, filters), Front(run)).world, Last(run));
    }
  }

  // Such a run, and where the call is then.
  ghost predicate Arrives(w: World, run: seq<Step>, at: Unsubscriber) {
    && Possible(w, run) && EventRaces.Throughout(w, run, UnsubscribeOnly)
    && After(w, run).Runs? && After(w, run).world.unsub == at
  }

  lemma ArrivesNext(w: World, run: seq<Step>, at: Unsubscriber, a: Step)
    requires Arrives(w, run, at) && UnsubscribeOnly(w, a)
    requires Enabled(After(w, run).world, a) && Move(After(w, run).world, a).Runs?
    ensures After(w, run + [a]) == Move(After(w, run).world, a)
    ensures Arrives(w, run + [a], Move(After(w, run).world, a).world.unsub)
  {
    hide Move;
    hide Enabled;
    assert Front(run + [a]) == run;
  }

  lemma {:induction false} UnsubscribeReaches(w: World, filters: seq<Str>, k: nat)
    requires w.unsub.Absent? && k <= |filters| && UnsubscribedAll(w.registry, filters[..k]).Ok?
    ensures exists run :: Arrives(Asked(w, filters), run, Looking(filters[k..]))
  {
    var w1 := Asked(w, filters);
    if k == 0 {
      assert filters[0..] == filters;
      assert Arrives(w1, [], Looking(filters));
    } else {
      assert filters[..k][..k - 1] == filters[..k - 1];
      UnsubscribeReaches(w, filters, k - 1);
      hide Asked;
      hide Possible;
      hide EventRaces.Throughout;
      var run :| Arrives(w1, run, Looking(filters[k - 1..]));
      UnsubscribeRefines(w, filters, run);
      assert filters[k - 1..] == [filters[k - 1]] + filters[k..];
      OneMore(w.registry, filters, k - 1);
      UnsubscribesOne(w1, run, filters[k - 1], filters[k..]);
    }
  }

  lemma UnsubscribesOne(w: World, run: seq<Step>, f: Str, todo: seq<Str>)
    requires Arrives(w, run, Looking([f] + todo)) && Unsubscribed(After(w, run).world.registry, f).Ok?
    ensures exists more :: Arrives(w, more, Looking(todo))
  {
    OneTopic(After(w, run).world, f, todo);
    hide Possible;
    hide EventRaces.Throughout;
    hide Move;
    hide Enabled;
    ArrivesNext(w, run, Looking([f] + todo), Look);
    var looked := After(w, run + [Look]).world;
    if looked.unsub.Closing? {
      ArrivesNext(w, run + [Look], looked.unsub, CloseHeld);
    }
  }

  lemma OneTopic(w: World, f: Str, todo: seq<Str>)
    requires w.unsub == Looking([f] + todo) && Unsubscribed(w.registry, f).Ok?
    ensures Enabled(w, Look) && Move(w, Look).Runs?
    ensures var looked := Move(w, Look).world;
      looked.unsub == Looking(todo)
      || (looked.unsub.Closing? && Enabled(looked, CloseHeld) && Move(looked, CloseHeld).Runs?
          && Move(looked, CloseHeld).world.unsub == Looking(todo))
  {
    hide Closed;
    assert ([f] + todo)[1..] == todo;
  }

  // And they get there: the call returns, unless the operation panics.
  lemma UnsubscribeEnds(w: World, filters: seq<Str>)
    requires w.unsub.Absent? && UnsubscribedAll(w.registry, filters).Ok?
    ensures exists run :: Arrives(Asked(w, filters), run, Absent)
  {
    assert filters[..|filters|] == filters && filters[|filters|..] == [];
    UnsubscribeReaches(w, filters, |filters|);
    var w1 := Asked(w, filters);
    hide Asked;
    hide Possible;
    hide EventRaces.Throughout;
    hide UnsubscribedAll;
    var run :| Arrives(w1, run, Looking([]));
    ArrivesNext(w1, run, Looking([]), Return);
  }
}
