// The event-channel registry with the goroutines interleaved (mqtt/client.go): Poll ranges over topicChans with no lock
// held and copies a channel before signal takes eventMutex; Unsubscribe works under c.mutex, CloseEventChannel under
// eventMutex.
module EventRaces {
  import opened Bits
  import opened Primitives
  import opened TopicMatch
  import opened Events

  // A range over topicChans on its way: what it has visited, and what has been there since it began and is still to be.
  datatype Range = Range(topic: Str, e: Event, visited: set<Str>, due: set<Str>)

  datatype Resume = Finished | Resumed(range: Range)

  // Where the polling goroutine is.
  datatype Poller =
    | Idle
    | Ranging(range: Range)                 // between two filters
    | Holding(range: Range, channel: nat)   // has the channel of a filter that matches, and no lock
    | Fanning(e: Event, back: Resume, seen: set<nat>, left: set<nat>)                 // in signal, with eventMutex
    | Aiming(e: Event, back: Resume, seen: set<nat>, left: set<nat>, channel: nat)    // has a general channel, too

  // Where a call of Unsubscribe is that has its answer and c.mutex.
  datatype Unsubscriber =
    | Absent
    | Looking(todo: seq<Str>)
    | Closing(todo: seq<Str>, held: EventChannel)   // has the channel of a topic

  datatype World = World(registry: Registry, poll: Poller, unsub: Unsubscriber)

  datatype Outcome = Runs(world: World) | Crash

  datatype Step =
    | CreateStep(n: int)
    | BindStep(filter: Str, id: nat)
    | CloseStep(id: nat)
    | ConsumeStep(id: nat)
    | Unsubscribe(filters: seq<Str>)
    | Look
    | CloseHeld
    | Return
    | Route(topic: Str, e: Event)    // a PUBLISH comes in
    | Pick(filter: Str)
    | SendHeld
    | EndRange
    | SignalAll(e: Event)            // another packet comes in
    | Aim(key: nat)
    | SendAimed
    | EndFan

  // ---------- Steps ----------

  predicate HasEventMutex(p: Poller) {
    p.Fanning? || p.Aiming?
  }

  // Whether the locks, and the two ranges, allow a step.
  predicate Enabled(w: World, a: Step) {
    match a
    case CreateStep(_) => !HasEventMutex(w.poll)
    case BindStep(_, _) => w.unsub.Absent?
    case CloseStep(_) => !HasEventMutex(w.poll)
    case ConsumeStep(_) => true
    case Unsubscribe(_) => w.unsub.Absent?
    case Look => w.unsub.Looking? && w.unsub.todo != []
    case CloseHeld => w.unsub.Closing?
    case Return => w.unsub.Looking? && w.unsub.todo == []
    case Route(_, _) => w.poll.Idle?
    case Pick(f) => w.poll.Ranging? && f in w.registry.topicChans && f !in w.poll.range.visited
    case SendHeld => w.poll.Holding?
    case EndRange => w.poll.Ranging? && w.poll.range.due == {}
    case SignalAll(_) => w.poll.Idle?
    case Aim(k) => w.poll.Fanning? && k in w.registry.eventChans && k !in w.poll.seen
    case SendAimed => w.poll.Aiming?
    case EndFan => w.poll.Fanning? && w.poll.left == {}
  }

  // What leaves a map is not due any more.
  function TrimRange(r: Range, reg: Registry): Range {
    r.(due := r.due * reg.topicChans.Keys)
  }

  function TrimBack(b: Resume, reg: Registry): Resume {
    match b
    case Finished => Finished
    case Resumed(r) => Resumed(TrimRange(r, reg))
  }

  function Trim(p: Poller, reg: Registry): Poller {
    match p
    case Idle => Idle
    case Ranging(r) => Ranging(TrimRange(r, reg))
    case Holding(r, c) => Holding(TrimRange(r, reg), c)
    case Fanning(e, back, seen, left) => Fanning(e, TrimBack(back, reg), seen, left * reg.eventChans.Keys)
    case Aiming(e, back, seen, left, c) => Aiming(e, TrimBack(back, reg), seen, left * reg.eventChans.Keys, c)
  }

  function With(w: World, reg: Registry): World {
    w.(registry := reg, poll := Trim(w.poll, reg))
  }

  function Fan(w: World, e: Event, back: Resume): World {
    w.(poll := Fanning(e, back, {}, w.registry.eventChans.Keys))
  }

  function Picked(w: World, f: Str): Outcome
    requires w.poll.Ranging? && f in w.registry.topicChans
  {
    var r := w.poll.range.(visited := w.poll.range.visited + {f}, due := w.poll.range.due - {f});
    match MatchOutcome(r.topic, f)
    case IndexPanic => Crash
    case NotMatched => Runs(w.(poll := Ranging(r)))
    case Matched => Runs(w.(poll := Holding(r, w.registry.topicChans[f].channel)))
  }

  // signal for one channel takes eventMutex, sends and unlocks; for nil it turns to the general channels.
  function SentHeld(w: World): Outcome
    requires w.poll.Holding?
  {
    var range, c := w.poll.range, w.poll.channel;
    if c == 0 then Runs(Fan(w, range.e, Resumed(range)))
    else
      match Offered(w.registry, {c}, range.e)
      case Panic => Crash
      case Ok(reg) => Runs(w.(registry := reg, poll := Ranging(range)))
  }

  function SentAimed(w: World): Outcome
    requires w.poll.Aiming?
  {
    var p := w.poll;
    match Offered(w.registry, {p.channel}, p.e)
    case Panic => Crash
    case Ok(reg) => Runs(w.(registry := reg, poll := Fanning(p.e, p.back, p.seen, p.left)))
  }

  function Looked(w: World): World
    requires w.unsub.Looking? && w.unsub.todo != []
  {
    var f, rest := w.unsub.todo[0], w.unsub.todo[1..];
    w.(unsub := if f in w.registry.topicChans then Closing(rest, w.registry.topicChans[f]) else Looking(rest))
  }

  function Move(w: World, a: Step): Outcome
    requires Enabled(w, a)
  {
    match a
    case CreateStep(n) => Runs(With(w, Created(w.registry, n)))
    case BindStep(filter, id) => Runs(With(w, Bound(w.registry, filter, id)))
    case CloseStep(id) =>
      (match Closed(w.registry, EventChannel(id, id))
       case Panic => Crash
       case Ok(reg) => Runs(With(w, reg)))
    case ConsumeStep(id) => Runs(With(w, Consumed(w.registry, id)))
    case Unsubscribe(filters) => Runs(w.(unsub := Looking(filters)))
    case Look => Runs(Looked(w))
    case CloseHeld =>
      (match Closed(w.registry, w.unsub.held)
       case Panic => Crash
       case Ok(reg) => Runs(With(w, reg).(unsub := Looking(w.unsub.todo))))
    case Return => Runs(w.(unsub := Absent))
    case Route(topic, e) => Runs(w.(poll := Ranging(Range(topic, e, {}, w.registry.topicChans.Keys))))
    case Pick(f) => Picked(w, f)
    case SendHeld => SentHeld(w)
    case EndRange => Runs(Fan(w, w.poll.range.e, Finished))
    case SignalAll(e) => Runs(Fan(w, e, Finished))
    case Aim(k) =>
      var p := w.poll;
      Runs(w.(poll := Aiming(p.e, p.back, p.seen + {k}, p.left - {k}, w.registry.eventChans[k].channel)))
    case SendAimed => SentAimed(w)
    case EndFan => Runs(w.(poll := if w.poll.back.Finished? then Idle else Ranging(w.poll.back.range)))
  }

  // ---------- Runs ----------

  function Front(run: seq<Step>): seq<Step>
    requires run != []
  {
    run[..|run| - 1]
  }

  function Last(run: seq<Step>): Step
    requires run != []
  {
    run[|run| - 1]
  }

  // A run the locks allow; only its last step may crash.
  predicate Possible(w: World, run: seq<Step>)
    decreases |run|, 0
  {
    run == [] ||
    (Possible(w, Front(run)) && After(w, Front(run)).Runs? && Enabled(After(w, Front(run)).world, Last(run)))
  }

  function After(w: World, run: seq<Step>): Outcome
    requires Possible(w, run)
    decreases |run|, 1
  {
    if run == [] then Runs(w) else Move(After(w, Front(run)).world, Last(run))
  }

  ghost predicate Throughout(w: World, run: seq<Step>, p: (World, Step) -> bool)
    requires Possible(w, run)
  {
    run == [] || (Throughout(w, Front(run), p) && p(After(w, Front(run)).world, Last(run)))
  }

  ghost predicate Always(w: World, run: seq<Step>, inv: World -> bool)
    requires Possible(w, run)
  {
    (After(w, run).Runs? ==> inv(After(w, run).world)) && (run == [] || Always(w, Front(run), inv))
  }

  const START := World(EMPTY, Idle, Absent)

  // ---------- The invariant ----------

  predicate Known(r: Registry, c: nat) {
    c == 0 || c in r.chans
  }

  // The registry is valid at every point of every interleaving, and what is held has been a channel, or nil.
  ghost predicate Sane(w: World) {
    && Valid(w.registry)
    && (w.poll.Holding? ==> Known(w.registry, w.poll.channel))
    && (w.poll.Aiming? ==> w.poll.channel in w.registry.chans)
    && (w.unsub.Closing? ==> w.unsub.held.id == w.unsub.held.channel && Known(w.registry, w.unsub.held.channel))
  }

  lemma RegistryStep(w: World, reg: Registry, unsub: Unsubscriber)
    requires Sane(w) && Valid(reg) && w.registry.chans.Keys <= reg.chans.Keys
    requires unsub == w.unsub || unsub.Looking?
    ensures Sane(With(w, reg).(unsub := unsub))
  {
  }

  lemma OfferedKeys(r: Registry, c: nat, e: Event)
    requires Valid(r) && c in r.chans
    ensures Offered(r, {c}, e) ==
      if r.chans[c].closed then Panic
      else Ok(r.(chans := r.chans[c := Offer(r.chans[c], e)]))
    ensures Offered(r, {c}, e).Ok? ==> Valid(Offered(r, {c}, e).registry)
  {
    if !r.chans[c].closed {
      OfferedValid(r, {c}, e);
      assert Offered(r, {c}, e).registry.chans == r.chans[c := Offer(r.chans[c], e)];
    } else {
      assert c in {c};
    }
  }

  // What a step makes crash: closing a channel that is nil or closed, sending on a closed one, and the matcher.
  lemma CrashesExactly(w: World, a: Step)
    requires Sane(w) && Enabled(w, a)
    ensures Move(w, a).Crash? <==>
      match a
      case CloseStep(id) => id !in w.registry.chans || w.registry.chans[id].closed
      case CloseHeld => w.unsub.held.channel == 0 || w.registry.chans[w.unsub.held.channel].closed
      case Pick(f) => MatchOutcome(w.poll.range.topic, f) == IndexPanic
      case SendHeld => w.poll.channel != 0 && w.registry.chans[w.poll.channel].closed
      case SendAimed => w.registry.chans[w.poll.channel].closed
      case _ => false
  {
    hide Valid;
    if a.SendHeld? && w.poll.channel != 0 {
      OfferedKeys(w.registry, w.poll.channel, w.poll.range.e);
    } else if a.SendAimed? {
      OfferedKeys(w.registry, w.poll.channel, w.poll.e);
    } else if a.CloseHeld? {
      NilUnknown(w.registry);
    }
  }

  lemma SaneUser(w: World, a: Step)
    requires Sane(w) && Enabled(w, a) && Move(w, a).Runs?
    requires a.CreateStep? || a.BindStep? || a.CloseStep? || a.ConsumeStep? || a.CloseHeld?
    ensures Sane(Move(w, a).world)
  {
    var r := w.registry;
    match a
    case CreateStep(n) => CreateValid(r, n);
    case BindStep(filter, id) => BindValid(r, filter, id);
    case CloseStep(id) => CloseValid(r, EventChannel(id, id));
    case ConsumeStep(id) => ConsumeValid(r, id);
    case CloseHeld => CloseValid(r, w.unsub.held);
  }

  lemma ConsumeValid(r: Registry, id: nat)
    requires Valid(r)
    ensures Valid(Consumed(r, id))
  {
  }

  lemma SaneOther(w: World, a: Step)
    requires Sane(w) && Enabled(w, a) && Move(w, a).Runs?
    requires !(a.CreateStep? || a.BindStep? || a.CloseStep? || a.ConsumeStep? || a.CloseHeld?)
    ensures Sane(Move(w, a).world)
  {
    if a.SendHeld? && w.poll.channel != 0 {
      OfferedKeys(w.registry, w.poll.channel, w.poll.range.e);
    } else if a.SendAimed? {
      OfferedKeys(w.registry, w.poll.channel, w.poll.e);
    }
  }

  lemma SaneStep(w: World, a: Step)
    requires Sane(w) && Enabled(w, a) && Move(w, a).Runs?
    ensures Sane(Move(w, a).world)
  {
    hide Sane;
    hide Move;
    if a.CreateStep? || a.BindStep? || a.CloseStep? || a.ConsumeStep? || a.CloseHeld? {
      SaneUser(w, a);
    } else {
      SaneOther(w, a);
    }
  }

  // Over every interleaving, until one step crashes, the registry keeps its invariant.
  lemma {:induction false} SaneAlong(w: World, run: seq<Step>)
    requires Sane(w) && Possible(w, run)
    ensures Always(w, run, Sane)
    decreases |run|
  {
    hide Sane;
    hide Move;
    if run != [] {
      SaneAlong(w, Front(run));
      if After(w, run).Runs? {
        SaneStep(After(w, Front(run)).world, Last(run));
      }
    }
  }

  // ---------- What closes a channel ----------

  predicate Closes(w: World, a: Step, c: nat) {
    a == CloseStep(c) || (a.CloseHeld? && w.unsub.Closing? && w.unsub.held.channel == c)
  }

  predicate ClosedIn(w: World, run: seq<Step>, c: nat)
    requires Possible(w, run)
  {
    run != [] && (ClosedIn(w, Front(run), c) || Closes(After(w, Front(run)).world, Last(run), c))
  }

  lemma ClosedByStep(w: World, a: Step, c: nat)
    requires Sane(w) && Enabled(w, a) && Move(w, a).Runs? && c in w.registry.chans
    ensures var r := Move(w, a).world.registry;
      c in r.chans && (r.chans[c].closed <==> w.registry.chans[c].closed || Closes(w, a, c))
  {
    if a.SendHeld? && w.poll.channel != 0 {
      OfferedKeys(w.registry, w.poll.channel, w.poll.range.e);
    } else if a.SendAimed? {
      OfferedKeys(w.registry, w.poll.channel, w.poll.e);
    }
  }

  // Over every interleaving a channel is closed at the end exactly if it was at the beginning, or some step closed it.
  lemma {:induction false} ClosedExactly(w: World, run: seq<Step>, c: nat)
    requires Sane(w) && Possible(w, run) && After(w, run).Runs? && c in w.registry.chans
    ensures var r := After(w, run).world.registry;
      c in r.chans && (r.chans[c].closed <==> w.registry.chans[c].closed || ClosedIn(w, run, c))
    decreases |run|
  {
    hide Sane;
    hide Move;
    hide Closes;
    if run != [] {
      ClosedExactly(w, Front(run), c);
      SaneAlong(w, Front(run));
      ClosedByStep(After(w, Front(run)).world, Last(run), c);
    }
  }

  // ---------- A channel held while others run ----------

  predicate PollStep(a: Step) {
    a.Route? || a.Pick? || a.SendHeld? || a.EndRange? || a.SignalAll? || a.Aim? || a.SendAimed? || a.EndFan?
  }

  predicate UnsubStep(a: Step) {
    a.Unsubscribe? || a.Look? || a.CloseHeld? || a.Return?
  }

  predicate PollWaits(w: World, a: Step) {
    !PollStep(a)
  }

  predicate UnsubWaits(w: World, a: Step) {
    !UnsubStep(a)
  }

  // The channel Poll has in hand, or 0.
  function InHand(p: Poller): nat {
    if p.Holding? || p.Aiming? then p.channel else 0
  }

  predicate SamePlace(p: Poller, q: Poller) {
    (p.Holding? <==> q.Holding?) && (p.Aiming? <==> q.Aiming?) && InHand(p) == InHand(q)
  }

  lemma {:induction false} PollStays(w: World, run: seq<Step>)
    requires Possible(w, run) && After(w, run).Runs? && Throughout(w, run, PollWaits)
    ensures SamePlace(After(w, run).world.poll, w.poll)
    decreases |run|
  {
    if run != [] {
      PollStays(w, Front(run));
    }
  }

  lemma {:induction false} UnsubStays(w: World, run: seq<Step>)
    requires Possible(w, run) && After(w, run).Runs? && Throughout(w, run, UnsubWaits)
    ensures After(w, run).world.unsub == w.unsub
    decreases |run|
  {
    if run != [] {
      UnsubStays(w, Front(run));
    }
  }

  // Poll picks a matching filter, others take any steps, and Poll sends to the channel it has in hand: that panics if
  // and only if one of those steps closed the channel, in CloseEventChannel or in Unsubscribe.
  lemma HeldSendCrashes(w: World, f: Str, run: seq<Step>)
    requires Sane(w) && Enabled(w, Pick(f)) && MatchOutcome(w.poll.range.topic, f) == Matched
    requires w.registry.topicChans[f] != NIL
    requires var w1 := Move(w, Pick(f)).world;
      Possible(w1, run) && After(w1, run).Runs? && Throughout(w1, run, PollWaits)
    ensures var w1 := Move(w, Pick(f)).world;
      var w2 := After(w1, run).world;
      Enabled(w2, SendHeld)
      && (Move(w2, SendHeld).Crash? <==> ClosedIn(w1, run, w.registry.topicChans[f].channel))
  {
    var w1, c := Move(w, Pick(f)).world, w.registry.topicChans[f].channel;
    SaneStep(w, Pick(f));
    MatchedOpen(w.registry, f);
    assert c != 0;
    PollStays(w1, run);
    ClosedExactly(w1, run, c);
    SaneAlong(w1, run);
    CrashesExactly(After(w1, run).world, SendHeld);
  }

  // The same for a general channel, though only Unsubscribe can close it then, after a SUBACK has bound it.
  lemma AimedSendCrashes(w: World, k: nat, run: seq<Step>)
    requires Sane(w) && Enabled(w, Aim(k))
    requires var w1 := Move(w, Aim(k)).world;
      Possible(w1, run) && After(w1, run).Runs? && Throughout(w1, run, PollWaits)
    ensures var w1 := Move(w, Aim(k)).world;
      var w2 := After(w1, run).world;
      Enabled(w2, SendAimed) && (Move(w2, SendAimed).Crash? <==> ClosedIn(w1, run, k))
  {
    var w1 := Move(w, Aim(k)).world;
    SaneStep(w, Aim(k));
    PollStays(w1, run);
    ClosedExactly(w1, run, k);
    SaneAlong(w1, run);
    CrashesExactly(After(w1, run).world, SendAimed);
  }

  // Unsubscribe looks a topic up, others take any steps, and it closes the channel: that panics if and only if the
  // topic was bound to nil or CloseEventChannel closed the channel in between.
  lemma HeldCloseCrashes(w: World, run: seq<Step>)
    requires Sane(w) && Enabled(w, Look) && w.unsub.todo[0] in w.registry.topicChans
    requires var w1 := Move(w, Look).world;
      Possible(w1, run) && After(w1, run).Runs? && Throughout(w1, run, UnsubWaits)
    ensures var w1 := Move(w, Look).world;
      var w2 := After(w1, run).world;
      var ch := w.registry.topicChans[w.unsub.todo[0]];
      Enabled(w2, CloseHeld) && (Move(w2, CloseHeld).Crash? <==> ch == NIL || ClosedIn(w1, run, ch.channel))
  {
    var w1, ch := Move(w, Look).world, w.registry.topicChans[w.unsub.todo[0]];
    SaneStep(w, Look);
    MatchedOpen(w.registry, w.unsub.todo[0]);
    UnsubStays(w1, run);
    SaneAlong(w1, run);
    if ch != NIL {
      assert ch.channel != 0;
      ClosedExactly(w1, run, ch.channel);
    }
    CrashesExactly(After(w1, run).world, CloseHeld);
  }

  // ---------- Polite users ----------

  // Every channel bound is still in eventChans, every one the user closes is open, and the matcher does not panic.
  predicate PoliteStep(w: World, a: Step) {
    && (a.BindStep? ==> a.id == 0 || a.id in w.registry.eventChans)
    && (a.CloseStep? ==> a.id in w.registry.chans && !w.registry.chans[a.id].closed)
    && (a.Pick? && w.poll.Ranging? ==> MatchOutcome(w.poll.range.topic, a.filter) != IndexPanic)
  }

  // Nothing is closed that another goroutine has in hand.
  predicate Undisturbed(w: World, a: Step) {
    && (a.CloseStep? ==> InHand(w.poll) != a.id && !(w.unsub.Closing? && w.unsub.held.channel == a.id))
    && (a.CloseHeld? && w.unsub.Closing? ==> InHand(w.poll) == 0 || InHand(w.poll) != w.unsub.held.channel)
  }

  predicate Open(r: Registry, c: nat) {
    c in r.chans && !r.chans[c].closed
  }

  // What is in hand is open.
  ghost predicate HeldOpen(w: World) {
    && NoNil(w.registry)
    && (InHand(w.poll) != 0 ==> Open(w.registry, InHand(w.poll)))
    && (w.unsub.Closing? ==> Open(w.registry, w.unsub.held.channel))
  }

  lemma PoliteRuns(w: World, a: Step)
    requires Sane(w) && HeldOpen(w) && Enabled(w, a) && PoliteStep(w, a)
    ensures Move(w, a).Runs?
  {
    CrashesExactly(w, a);
  }

  lemma HeldStep(w: World, a: Step)
    requires Sane(w) && HeldOpen(w) && Enabled(w, a) && PoliteStep(w, a)
    ensures Move(w, a).Runs? && (HeldOpen(Move(w, a).world) <==> Undisturbed(w, a))
  {
    PoliteRuns(w, a);
    if a.SendHeld? && w.poll.channel != 0 {
      OfferedKeys(w.registry, w.poll.channel, w.poll.range.e);
    } else if a.SendAimed? {
      OfferedKeys(w.registry, w.poll.channel, w.poll.e);
    }
  }

  lemma {:induction false} UndisturbedAlong(w: World, run: seq<Step>)
    requires Sane(w) && HeldOpen(w) && Possible(w, run)
    requires Throughout(w, run, PoliteStep) && Throughout(w, run, Undisturbed)
    ensures After(w, run).Runs? && Always(w, run, HeldOpen)
    decreases |run|
  {
    hide Sane;
    hide HeldOpen;
    hide Move;
    hide PoliteStep;
    hide Undisturbed;
    if run != [] {
      UndisturbedAlong(w, Front(run));
      SaneAlong(w, Front(run));
      HeldStep(After(w, Front(run)).world, Last(run));
    }
  }

  lemma {:induction false} UndisturbedOnlyThen(w: World, run: seq<Step>)
    requires Sane(w) && Possible(w, run) && Throughout(w, run, PoliteStep) && Always(w, run, HeldOpen)
    ensures Throughout(w, run, Undisturbed)
    decreases |run|
  {
    hide Sane;
    hide HeldOpen;
    hide Move;
    hide PoliteStep;
    hide Undisturbed;
    if run != [] {
      UndisturbedOnlyThen(w, Front(run));
      SaneAlong(w, Front(run));
      HeldStep(After(w, Front(run)).world, Last(run));
    }
  }

  lemma StartsOpen()
    ensures Sane(START) && HeldOpen(START)
  {
  }

  // Over every interleaving of polite users with Poll and Unsubscribe: what a goroutine has in hand is open all along
  // if and only if nothing is closed that another one has in hand; and then nothing panics, so no channel is closed
  // twice and none is sent to when closed.
  lemma PoliteInterleaving(run: seq<Step>)
    requires Possible(START, run) && Throughout(START, run, PoliteStep)
    ensures Always(START, run, HeldOpen) <==> Throughout(START, run, Undisturbed)
    ensures Throughout(START, run, Undisturbed) ==> After(START, run).Runs?
  {
    StartsOpen();
    if Throughout(START, run, Undisturbed) {
      UndisturbedAlong(START, run);
    }
    if Always(START, run, HeldOpen) {
      UndisturbedOnlyThen(START, run);
    }
  }

  // Whether the next step of a goroutine panics, however polite the users.
  ghost predicate CrashIsNext(w: World) {
    exists a: Step :: Enabled(w, a) && PoliteStep(w, a) && Move(w, a).Crash?
  }

  // As soon as something in hand has been closed, the goroutine that has it panics when it goes on - and not before.
  lemma CrashExactlyWhenClosed(w: World)
    requires Sane(w) && NoNil(w.registry) && (w.unsub.Closing? ==> w.unsub.held != NIL)
    ensures CrashIsNext(w) <==> !HeldOpen(w)
  {
    if HeldOpen(w) {
      forall a: Step | Enabled(w, a) && PoliteStep(w, a) ensures Move(w, a).Runs? {
        PoliteRuns(w, a);
      }
    } else if InHand(w.poll) != 0 && !Open(w.registry, InHand(w.poll)) {
      var a := if w.poll.Holding? then SendHeld else SendAimed;
      CrashesExactly(w, a);
    } else {
      CrashesExactly(w, CloseHeld);
      assert Enabled(w, CloseHeld) && PoliteStep(w, CloseHeld);
    }
  }

  // Polite users leave no filter bound to nil, so that Unsubscribe never has nil in hand.
  ghost predicate NeverNil(w: World) {
    NoNil(w.registry) && (w.unsub.Closing? ==> w.unsub.held != NIL)
  }

  lemma NeverNilStep(w: World, a: Step)
    requires Sane(w) && NeverNil(w) && Enabled(w, a) && PoliteStep(w, a) && Move(w, a).Runs?
    ensures NeverNil(Move(w, a).world)
  {
  }

  lemma {:induction false} NeverNilAlong(w: World, run: seq<Step>)
    requires Sane(w) && NeverNil(w) && Possible(w, run) && Throughout(w, run, PoliteStep) && After(w, run).Runs?
    ensures NeverNil(After(w, run).world)
    decreases |run|
  {
    hide Sane;
    hide NeverNil;
    hide Move;
    hide PoliteStep;
    if run != [] {
      NeverNilAlong(w, Front(run));
      SaneAlong(w, Front(run));
      NeverNilStep(After(w, Front(run)).world, Last(run));
    }
  }

  // Wherever polite users and the two goroutines have got to, a panic is due if and only if something in hand is
  // closed.
  lemma PanicDue(run: seq<Step>)
    requires Possible(START, run) && Throughout(START, run, PoliteStep) && After(START, run).Runs?
    ensures CrashIsNext(After(START, run).world) <==> !HeldOpen(After(START, run).world)
  {
    StartsOpen();
    SaneAlong(START, run);
    NeverNilAlong(START, run);
    CrashExactlyWhenClosed(After(START, run).world);
  }

  // ---------- Polite runs that panic ----------

  ghost predicate Leads(run: seq<Step>, w: World) {
    Possible(START, run) && Throughout(START, run, PoliteStep) && After(START, run) == Runs(w)
  }

  lemma Extend(run: seq<Step>, w: World, a: Step)
    requires Leads(run, w) && Enabled(w, a) && PoliteStep(w, a)
    ensures Possible(START, run + [a]) && Throughout(START, run + [a], PoliteStep)
    ensures After(START, run + [a]) == Move(w, a)
  {
    assert Front(run + [a]) == run;
  }

  const TOPIC: Str := [0x61]

  // A channel made and bound to the filter "a".
  function Subscribed(): seq<Step> {
    [CreateStep(1)] + [BindStep(TOPIC, 1)]
  }

  function BoundWorld(): World {
    World(Bound(Created(EMPTY, 1), TOPIC, 1), Idle, Absent)
  }

  lemma Continue(run: seq<Step>, w: World, a: Step, w': World)
    requires Leads(run, w) && Enabled(w, a) && PoliteStep(w, a) && Move(w, a) == Runs(w')
    ensures Leads(run + [a], w')
  {
    Extend(run, w, a);
  }

  // The world with one general channel, and Poll at some place.
  function OneGeneral(p: Poller): World {
    World(Created(EMPTY, 1), p, Absent)
  }

  lemma GeneralOne()
    ensures 1 in Created(EMPTY, 1).eventChans
  {
  }

  lemma BindSteps()
    ensures var w := OneGeneral(Idle);
      && Enabled(START, CreateStep(1)) && Move(START, CreateStep(1)) == Runs(w)
      && Enabled(w, BindStep(TOPIC, 1)) && Move(w, BindStep(TOPIC, 1)) == Runs(BoundWorld())
  {
  }

  lemma SubscribedLeads()
    ensures Leads(Subscribed(), BoundWorld())
  {
    var w := OneGeneral(Idle);
    assert Leads([], START);
    BindSteps();
    GeneralOne();
    hide Leads;
    hide Move;
    hide Created;
    hide BoundWorld;
    Continue([], START, CreateStep(1), w);
    assert [] + [CreateStep(1)] == [CreateStep(1)];
    Continue([CreateStep(1)], w, BindStep(TOPIC, 1), BoundWorld());
  }

  lemma TopicMatches()
    ensures MatchOutcome(TOPIC, TOPIC) == Matched
  {
    LiteralFilter(TOPIC, TOPIC);
  }

  // The user closes the channel between Poll's match and the send.
  function CloseWhileRouting(e: Event): seq<Step> {
    Subscribed() + [Route(TOPIC, e)] + [Pick(TOPIC)] + [CloseStep(1)]
  }

  lemma SendAfterClose(e: Event)
    ensures var run := CloseWhileRouting(e);
      Possible(START, run + [SendHeld]) && Throughout(START, run + [SendHeld], PoliteStep)
      && After(START, run + [SendHeld]) == Crash
  {
    hide Leads;
    SubscribedLeads();
    TopicMatches();
    var w0 := BoundWorld();
    var w1 := w0.(poll := Ranging(Range(TOPIC, e, {}, {TOPIC})));
    var w2 := w0.(poll := Holding(Range(TOPIC, e, {TOPIC}, {}), 1));
    var run := Subscribed();
    assert w0.registry.topicChans.Keys == {TOPIC};
    Extend(run, w0, Route(TOPIC, e));
    assert {} + {TOPIC} == {TOPIC} && {TOPIC} - {TOPIC} == {};
    Reached(run + [Route(TOPIC, e)], w1);
    Extend(run + [Route(TOPIC, e)], w1, Pick(TOPIC));
    Reached(run + [Route(TOPIC, e)] + [Pick(TOPIC)], w2);
    Extend(run + [Route(TOPIC, e)] + [Pick(TOPIC)], w2, CloseStep(1));
    var w3 := Move(w2, CloseStep(1)).world;
    Reached(CloseWhileRouting(e), w3);
    Extend(CloseWhileRouting(e), w3, SendHeld);
    assert 1 in {1};
  }

  lemma Reached(run: seq<Step>, w: World)
    requires Possible(START, run) && Throughout(START, run, PoliteStep) && After(START, run) == Runs(w)
    ensures Leads(run, w)
  {
  }

  // The user closes the channel between Unsubscribe's lookup and its close.
  function CloseWhileUnsubscribing(): seq<Step> {
    Subscribed() + [Unsubscribe([TOPIC])] + [Look] + [CloseStep(1)]
  }

  lemma ClosedTwice()
    ensures var run := CloseWhileUnsubscribing();
      Possible(START, run + [CloseHeld]) && Throughout(START, run + [CloseHeld], PoliteStep)
      && After(START, run + [CloseHeld]) == Crash
  {
    hide Leads;
    SubscribedLeads();
    var w0, run := BoundWorld(), Subscribed();
    var w1 := w0.(unsub := Looking([TOPIC]));
    var w2 := w0.(unsub := Closing([], EventChannel(1, 1)));
    Extend(run, w0, Unsubscribe([TOPIC]));
    Reached(run + [Unsubscribe([TOPIC])], w1);
    assert [TOPIC][1..] == [];
    Extend(run + [Unsubscribe([TOPIC])], w1, Look);
    Reached(run + [Unsubscribe([TOPIC])] + [Look], w2);
    Extend(run + [Unsubscribe([TOPIC])] + [Look], w2, CloseStep(1));
    var w3 := Move(w2, CloseStep(1)).world;
    Reached(CloseWhileUnsubscribing(), w3);
    Extend(CloseWhileUnsubscribing(), w3, CloseHeld);
  }

  // A SUBACK binds the general channel Poll is about to send to, and an UNSUBACK closes it.
  function CloseWhileSignalling(e: Event): seq<Step> {
    [CreateStep(1)] + [SignalAll(e)] + [Aim(1)] + [BindStep(TOPIC, 1)] + [Unsubscribe([TOPIC])] + [Look] + [CloseHeld]
  }

  lemma SignalSteps(e: Event)
    ensures var w0, w1, w2 :=
        OneGeneral(Idle), OneGeneral(Fanning(e, Finished, {}, {1})), OneGeneral(Aiming(e, Finished, {1}, {}, 1));
      && Enabled(START, CreateStep(1)) && Move(START, CreateStep(1)) == Runs(w0)
      && Enabled(w0, SignalAll(e)) && Move(w0, SignalAll(e)) == Runs(w1)
      && Enabled(w1, Aim(1)) && Move(w1, Aim(1)) == Runs(w2)
  {
    assert Created(EMPTY, 1).eventChans.Keys == {1};
    assert {} + {1} == {1} && {1} - {1} == {};
  }

  lemma AimedAndBound(e: Event)
    ensures Leads([CreateStep(1)] + [SignalAll(e)] + [Aim(1)] + [BindStep(TOPIC, 1)],
                  BoundWorld().(poll := Aiming(e, Finished, {1}, {}, 1)))
  {
    var w0, w1, w2 :=
      OneGeneral(Idle), OneGeneral(Fanning(e, Finished, {}, {1})), OneGeneral(Aiming(e, Finished, {1}, {}, 1));
    assert Leads([], START);
    SignalSteps(e);
    assert {} * w2.registry.eventChans.Keys == {};
    assert Trim(w2.poll, Bound(w2.registry, TOPIC, 1)) == w2.poll;
    hide Leads;
    hide Created;
    hide Bound;
    hide Trim;
    Continue([], START, CreateStep(1), w0);
    assert [] + [CreateStep(1)] == [CreateStep(1)];
    Continue([CreateStep(1)], w0, SignalAll(e), w1);
    Continue([CreateStep(1)] + [SignalAll(e)], w1, Aim(1), w2);
    assert 1 in w2.registry.eventChans by { GeneralOne(); }
    Continue([CreateStep(1)] + [SignalAll(e)] + [Aim(1)], w2, BindStep(TOPIC, 1), BoundWorld().(poll := w2.poll));
  }

  lemma SendAfterUnsubscribe(e: Event)
    ensures var run := CloseWhileSignalling(e);
      Possible(START, run + [SendAimed]) && Throughout(START, run + [SendAimed], PoliteStep)
      && After(START, run + [SendAimed]) == Crash
  {
    hide Leads;
    AimedAndBound(e);
    var run := [CreateStep(1)] + [SignalAll(e)] + [Aim(1)] + [BindStep(TOPIC, 1)];
    var w0 := BoundWorld().(poll := Aiming(e, Finished, {1}, {}, 1));
    var w1 := w0.(unsub := Looking([TOPIC]));
    var w2 := w0.(unsub := Closing([], EventChannel(1, 1)));
    Extend(run, w0, Unsubscribe([TOPIC]));
    Reached(run + [Unsubscribe([TOPIC])], w1);
    assert [TOPIC][1..] == [];
    Extend(run + [Unsubscribe([TOPIC])], w1, Look);
    Reached(run + [Unsubscribe([TOPIC])] + [Look], w2);
    Extend(run + [Unsubscribe([TOPIC])] + [Look], w2, CloseHeld);
    var w3 := Move(w2, CloseHeld).world;
    Reached(CloseWhileSignalling(e), w3);
    Extend(CloseWhileSignalling(e), w3, SendAimed);
    assert 1 in {1};
  }
}
