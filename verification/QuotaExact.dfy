// Exactly when the send quota keeps its promise: runs that break it for every receive maximum, and the conditions that
// follow from them and from QuotaSafety. And runs that lose a credit, and that break the receive quota.
module QuotaExact {
  import opened Bits
  import opened MemoryStorage
  import opened FlowControl
  import opened FlowStorage
  import opened FlowRuns

  // ---------- Building runs ----------

  ghost predicate Behaves(s: State, run: seq<Action>, p: (State, Action) -> bool) {
    Possible(s, run) && Throughout(s, run, p)
  }

  ghost predicate Leads(s: State, run: seq<Action>, t: State, p: (State, Action) -> bool) {
    Behaves(s, run, p) && After(s, run) == t
  }

  lemma Extend(s: State, run: seq<Action>, t: State, p: (State, Action) -> bool, a: Action)
    requires Leads(s, run, t, p) && Enabled(t, a) && p(t, a)
    ensures Leads(s, run + [a], Apply(t, a), p)
  {
    assert Front(run + [a]) == run;
  }

  lemma Start(s: State, p: (State, Action) -> bool)
    ensures Leads(s, [], s, p)
  {
  }

  lemma {:induction false} Weaken(s: State, run: seq<Action>, p: (State, Action) -> bool, q: (State, Action) -> bool)
    requires Behaves(s, run, p) && forall u, a :: p(u, a) ==> q(u, a)
    ensures Behaves(s, run, q)
    decreases |run|
  {
    if run != [] {
      Weaken(s, Front(run), p, q);
    }
  }

  // A run of a call of Publish with quota left, up to the packet being sent.
  function SendRun(i: nat, qos: QoS, id: uint16): seq<Action> {
    [Enter(i, qos, id), Persist(i), Test(i), Send(i)]
  }

  // Where it leads when the identifier is not in the storage.
  function Sent(s: State, i: nat, qos: QoS, id: uint16): State {
    var e := Entry(id, StoredPublish(qos));
    s.(calls := s.calls[i := Unsettled], open := s.open + multiset{e},
       storage := if s.storage.Some? then Some(s.storage.value + [e]) else None)
  }

  // The packet persisted.
  function Persistent(t: State, i: nat, qos: QoS, id: uint16): State {
    var e := Entry(id, StoredPublish(qos));
    t.(conn := Some(i), calls := t.calls[i := Staged(qos, id)], staged := t.staged + multiset{e},
       storage := Sent(t, i, qos, id).storage)
  }

  lemma PrepareLeads(s: State, run: seq<Action>, t: State, p: (State, Action) -> bool, i: nat, qos: QoS, id: uint16)
    requires Leads(s, run, t, p)
    requires !t.halted && t.conn.None? && i !in t.calls && qos > 0 && (t.storage.Some? ==> !Holds(t.storage.value, id))
    requires p(t, Enter(i, qos, id)) && forall u: State :: p(u, Persist(i))
    ensures Leads(s, run + [Enter(i, qos, id)] + [Persist(i)], Persistent(t, i, qos, id), p)
  {
    hide Leads;
    hide Holds;
    hide WakeEnabled;
    hide Credit;
    hide DropEntry;
    hide Finished;
    hide OnPubrec;
    hide OnPublish;
    hide OnPubrel;
    hide SendFailed;
    hide SendOk;
    var t1 := t.(conn := Some(i), calls := t.calls[i := Entered(qos, id)]);
    Extend(s, run, t, p, Enter(i, qos, id));
    assert t1.calls[i := Staged(qos, id)] == t.calls[i := Staged(qos, id)];
    Extend(s, run + [Enter(i, qos, id)], t1, p, Persist(i));
  }

  lemma SendStaged(t: State, i: nat, qos: QoS, id: uint16)
    requires !t.halted && t.conn.None? && i !in t.calls && t.sendQuota > 0 && qos > 0
    ensures var t2 := Persistent(t, i, qos, id);
      && Enabled(t2, Test(i)) && Enabled(Apply(t2, Test(i)), Send(i))
      && Apply(Apply(t2, Test(i)), Send(i)) == Sent(t, i, qos, id)
  {
    hide Holds;
    hide WakeEnabled;
    hide Credit;
    hide DropEntry;
    hide Finished;
    hide OnPubrec;
    hide OnPublish;
    hide OnPubrel;
    hide SendFailed;
    hide Persisted;
    var t2, e := Persistent(t, i, qos, id), Entry(id, StoredPublish(qos));
    var t3 := t2.(calls := t.calls[i := Ready(qos, id)]);
    assert t2.calls[i := Ready(qos, id)] == t3.calls;
    assert t3.calls[i := Unsettled] == t.calls[i := Unsettled];
    assert t3.staged - multiset{e} == t.staged;
  }

  lemma SendLeads(s: State, run: seq<Action>, t: State, p: (State, Action) -> bool, i: nat, qos: QoS, id: uint16)
    requires Leads(s, run, t, p)
    requires !t.halted && t.conn.None? && i !in t.calls && t.sendQuota > 0 && qos > 0
    requires t.storage.Some? ==> !Holds(t.storage.value, id)
    requires forall u: State, a <- SendRun(i, qos, id) :: (a.Enter? ==> u == t) ==> p(u, a)
    ensures Leads(s, run + SendRun(i, qos, id), Sent(t, i, qos, id), p)
  {
    var t2, r := Persistent(t, i, qos, id), SendRun(i, qos, id);
    hide Leads;
    hide Persistent;
    hide Sent;
    assert r[0] in r && r[1] in r && r[2] in r && r[3] in r;
    PrepareLeads(s, run, t, p, i, qos, id);
    SendStaged(t, i, qos, id);
    Extend(s, run + [r[0]] + [r[1]], t2, p, r[2]);
    Extend(s, run + [r[0]] + [r[1]] + [r[2]], Apply(t2, r[2]), p, r[3]);
    assert run + [r[0]] + [r[1]] + [r[2]] + [r[3]] == run + r;
  }

  // A client after Connect, with an empty storage or without one ...
  function Base(max: uint16, stored: bool): State {
    Connected(0, max, if stored then Some([]) else None)
  }

  // ... and between calls.
  function Idle(max: uint16, stored: bool, quota: uint16, open: multiset<Exchange>, refused: multiset<Exchange>,
                list: seq<Exchange>): State
  {
    Base(max, stored).(sendQuota := quota, open := open, refused := refused,
                       storage := if stored then Some(list) else None)
  }

  // A call that sends and decrements.
  function PublishRun(qos: QoS, id: uint16): seq<Action> {
    SendRun(0, qos, id) + [Settle(0)]
  }

  lemma PublishLeads(max: uint16, stored: bool, run: seq<Action>, quota: uint16, open: multiset<Exchange>,
                     refused: multiset<Exchange>, list: seq<Exchange>, p: (State, Action) -> bool, qos: QoS,
                     id: uint16)
    requires Leads(Base(max, stored), run, Idle(max, stored, quota, open, refused, list), p) && quota > 0 && qos > 0
    requires stored ==> !Holds(list, id)
    requires forall u: State, a <- PublishRun(qos, id) :: (a.Enter? ==> u.calls == map[]) ==> p(u, a)
    ensures var e := Entry(id, StoredPublish(qos));
      Leads(Base(max, stored), run + PublishRun(qos, id),
            Idle(max, stored, quota - 1, open + multiset{e}, refused, list + [e]), p)
  {
    hide Leads;
    var s, t := Base(max, stored), Idle(max, stored, quota, open, refused, list);
    var r := PublishRun(qos, id);
    forall a <- SendRun(0, qos, id) ensures a in r {
    }
    assert r[4] == Settle(0) && Settle(0) in r;
    SendLeads(s, run, t, p, 0, qos, id);
    var u := Sent(t, 0, qos, id);
    Extend(s, run + SendRun(0, qos, id), u, p, Settle(0));
    assert u.calls - {0} == t.calls;
    assert run + SendRun(0, qos, id) + [Settle(0)] == run + r;
  }

  lemma PublishActions(qos: QoS, id: uint16)
    ensures forall a <- PublishRun(qos, id) :: CallAction(a) && (a.Enter? ==> a.id == id)
  {
  }

  // ---------- Filling the quota ----------

  // Packet identifiers, none of them 0: distinct as long as there are any left.
  function Id(k: nat): (id: uint16)
    ensures id != 0
  {
    1 + k % 65_535
  }

  lemma IdsDistinct(j: nat, k: nat)
    requires j < k < 65_535
    ensures Id(j) != Id(k)
  {
  }

  // k publishes, one after the other.
  function FillRun(k: nat): seq<Action> {
    if k == 0 then [] else FillRun(k - 1) + PublishRun(1, Id(k - 1))
  }

  // What they leave outstanding.
  function Filled(k: nat): multiset<Exchange> {
    if k == 0 then multiset{} else Filled(k - 1) + multiset{Entry(Id(k - 1), StoredPublish(1))}
  }

  lemma {:induction false} FilledSize(k: nat)
    ensures |Filled(k)| == k && forall e <- Filled(k) :: e.packet == StoredPublish(1)
  {
    if k > 0 {
      FilledSize(k - 1);
    }
  }

  // What they leave in the storage.
  function FilledList(k: nat): seq<Exchange> {
    if k == 0 then [] else FilledList(k - 1) + [Entry(Id(k - 1), StoredPublish(1))]
  }

  lemma {:induction false} Absent(k: nat, id: uint16)
    requires forall j: nat | j < k :: Id(j) != id
    ensures !Holds(FilledList(k), id)
  {
    hide Id;
    if k > 0 {
      Absent(k - 1, id);
      IndexOfSnoc(FilledList(k - 1), Entry(Id(k - 1), StoredPublish(1)), id);
    }
  }

  lemma NextAbsent(k: nat)
    requires k < 65_535
    ensures !Holds(FilledList(k), Id(k))
  {
    forall j: nat | j < k ensures Id(j) != Id(k) {
      IdsDistinct(j, k);
    }
    Absent(k, Id(k));
  }

  // The steps a condition has to allow for these runs.
  ghost predicate AllowsCalls(p: (State, Action) -> bool) {
    forall u: State, a: Action ::
      CallAction(a) && (a.Enter? ==> u.calls == map[] && a.id != 0) ==> p(u, a)
  }

  lemma {:induction false} FillLeads(max: uint16, stored: bool, k: nat, p: (State, Action) -> bool)
    requires k <= max && AllowsCalls(p)
    ensures Leads(Base(max, stored), FillRun(k), Idle(max, stored, max - k, Filled(k), multiset{}, FilledList(k)), p)
  {
    hide Leads;
    hide PublishRun;
    hide CallAction;
    hide Id;
    hide Holds;
    if k == 0 {
      Start(Base(max, stored), p);
    } else {
      FillLeads(max, stored, k - 1, p);
      PublishActions(1, Id(k - 1));
      NextAbsent(k - 1);
      PublishLeads(max, stored, FillRun(k - 1), max - k + 1, Filled(k - 1), multiset{}, FilledList(k - 1), p, 1,
                   Id(k - 1));
    }
  }

  // ---------- Overlapping calls ----------

  // What is promised of a run: no more publishes outstanding than the server's receive maximum, and a quota that has
  // not wrapped around.
  ghost predicate WithinQuota(s: State) {
    |s.open| <= s.serverMax && s.sendQuota <= s.serverMax
  }

  // At most n calls of Publish in progress, against a conforming server that sends no failing PUBREC.
  ghost predicate Modest(n: nat, s: State, a: Action) {
    Conforms(s, a) && Refusal(a) == 0 && (a.Enter? ==> |s.calls| < n)
  }

  ghost function UpTo(n: nat): (State, Action) -> bool {
    (s: State, a: Action) => Modest(n, s, a)
  }

  // No packet with QoS > 0 goes out with identifier 0.
  predicate Identified(s: State, a: Action) {
    a.Enter? && a.qos > 0 ==> a.id != 0
  }

  // Identifiers used as they should be on both sides.
  ghost predicate Tidy(s: State, a: Action) {
    Conforms(s, a) && Identified(s, a) && FreshInbound(s, a)
  }

  ghost predicate Proper(n: nat, s: State, a: Action) {
    Modest(n, s, a) && Identified(s, a) && FreshInbound(s, a)
  }

  ghost function ProperUpTo(n: nat): (State, Action) -> bool {
    (s: State, a: Action) => Proper(n, s, a)
  }

  // All credits but one used up, two calls that both find it, and their decrements.
  function OverlapRun(max: uint16): seq<Action>
    requires max >= 1
  {
    FillRun(max - 1) + SendRun(0, 1, Id(max - 1)) + SendRun(1, 1, Id(max)) + [Settle(0)] + [Settle(1)]
  }

  // One publish too many outstanding.
  function Overlapped(max: uint16, stored: bool, quota: uint16, calls: map<nat, Call>): State
    requires max >= 1
  {
    Idle(max, stored, quota, Filled(max + 1), multiset{}, FilledList(max + 1)).(calls := calls)
  }

  lemma SecondCall(t: State, id: uint16)
    requires t.calls == map[0 := Unsettled] && id != 0
    ensures forall u: State, a <- SendRun(1, 1, id) :: (a.Enter? ==> u == t) ==> ProperUpTo(2)(u, a)
  {
    forall u: State, a <- SendRun(1, 1, id) | a.Enter? ==> u == t ensures ProperUpTo(2)(u, a) {
      assert Proper(2, u, a);
    }
  }

  lemma FirstCall(t: State, id: uint16)
    requires t.calls == map[] && id != 0
    ensures forall u: State, a <- SendRun(0, 1, id) :: (a.Enter? ==> u == t) ==> ProperUpTo(2)(u, a)
  {
    forall u: State, a <- SendRun(0, 1, id) | a.Enter? ==> u == t ensures ProperUpTo(2)(u, a) {
      assert Proper(2, u, a);
    }
  }

  lemma ProperCalls(n: nat)
    requires n >= 1
    ensures AllowsCalls(ProperUpTo(n))
  {
    forall u: State, a: Action | CallAction(a) && (a.Enter? ==> u.calls == map[] && a.id != 0)
      ensures ProperUpTo(n)(u, a)
    {
      assert Proper(n, u, a);
    }
  }

  lemma OverlapFirst(max: uint16, stored: bool)
    requires max >= 1 && (stored ==> max < 65_535)
    ensures Leads(Base(max, stored), FillRun(max - 1) + SendRun(0, 1, Id(max - 1)),
                  Sent(Idle(max, stored, 1, Filled(max - 1), multiset{}, FilledList(max - 1)), 0, 1, Id(max - 1)),
                  ProperUpTo(2))
  {
    hide Leads;
    hide FillRun;
    hide Holds;
    hide Filled;
    hide FilledList;
    hide AllowsCalls;
    hide ProperUpTo;
    hide SendRun;
    var t := Idle(max, stored, 1, Filled(max - 1), multiset{}, FilledList(max - 1));
    NextAbsent(max - 1);
    ProperCalls(2);
    FillLeads(max, stored, max - 1, ProperUpTo(2));
    FirstCall(t, Id(max - 1));
    SendLeads(Base(max, stored), FillRun(max - 1), t, ProperUpTo(2), 0, 1, Id(max - 1));
  }

  lemma OverlapSends(max: uint16, stored: bool)
    requires max >= 1 && (stored ==> max < 65_535)
    ensures Leads(Base(max, stored), FillRun(max - 1) + SendRun(0, 1, Id(max - 1)) + SendRun(1, 1, Id(max)),
                  Overlapped(max, stored, 1, map[0 := Unsettled, 1 := Unsettled]), ProperUpTo(2))
  {
    hide Leads;
    hide FillRun;
    hide Holds;
    hide ProperUpTo;
    hide SendRun;
    OverlapFirst(max, stored);
    FilledTwo(max);
    if stored {
      NextAbsent(max);
    }
    hide Filled;
    hide FilledList;
    hide Id;
    var u := Sent(Idle(max, stored, 1, Filled(max - 1), multiset{}, FilledList(max - 1)), 0, 1, Id(max - 1));
    assert u.calls == map[0 := Unsettled];
    SecondCall(u, Id(max));
    SendLeads(Base(max, stored), FillRun(max - 1) + SendRun(0, 1, Id(max - 1)), u, ProperUpTo(2), 1, 1, Id(max));
    assert u.calls[1 := Unsettled] == map[0 := Unsettled, 1 := Unsettled];
  }

  lemma FilledTwo(max: uint16)
    requires max >= 1
    ensures Filled(max + 1) == Filled(max - 1) + multiset{Entry(Id(max - 1), StoredPublish(1))}
                               + multiset{Entry(Id(max), StoredPublish(1))}
    ensures FilledList(max) == FilledList(max - 1) + [Entry(Id(max - 1), StoredPublish(1))]
    ensures FilledList(max + 1) == FilledList(max) + [Entry(Id(max), StoredPublish(1))]
  {
  }

  lemma SettleLeads(s: State, run: seq<Action>, t: State, n: nat, i: nat, rest: map<nat, Call>)
    requires Leads(s, run, t, ProperUpTo(n))
    requires !t.halted && i in t.calls && t.calls[i].Unsettled? && t.calls - {i} == rest
    ensures Leads(s, run + [Settle(i)], t.(sendQuota := Dec16(t.sendQuota), calls := rest), ProperUpTo(n))
  {
    hide Leads;
    Extend(s, run, t, ProperUpTo(n), Settle(i));
  }

  // For every receive maximum two overlapping calls leave one publish too many, and the quota at 65535; with a
  // storage as long as there are that many identifiers.
  lemma OverlapBreaks(max: uint16, stored: bool)
    requires max >= 1 && (stored ==> max < 65_535)
    ensures Leads(Base(max, stored), OverlapRun(max), Overlapped(max, stored, 0xFFFF, map[]), ProperUpTo(2))
    ensures |Overlapped(max, stored, 0xFFFF, map[]).open| == max + 1
  {
    hide Leads;
    hide SendRun;
    hide FillRun;
    hide Id;
    hide ProperUpTo;
    hide Filled;
    hide FilledList;
    var s, run := Base(max, stored), FillRun(max - 1) + SendRun(0, 1, Id(max - 1)) + SendRun(1, 1, Id(max));
    var both: map<nat, Call>, one: map<nat, Call> := map[0 := Unsettled, 1 := Unsettled], map[1 := Unsettled];
    OverlapSends(max, stored);
    FilledSize(max + 1);
    assert both - {0} == one && one - {1} == map[];
    SettleLeads(s, run, Overlapped(max, stored, 1, both), 2, 0, one);
    SettleLeads(s, run + [Settle(0)], Overlapped(max, stored, 0, one), 2, 1, map[]);
  }

  // Without credit and without anything outstanding nothing is ever sent with QoS > 0.
  ghost predicate Silent(s: State) {
    && s.sendQuota == 0 && s.open == multiset{} && s.refused == multiset{}
    && (forall i <- s.calls :: !NeedsQuota(s.calls[i]))
  }

  lemma SilentStep(s: State, a: Action)
    requires Enabled(s, a) && Silent(s) && Conforms(s, a)
    ensures Silent(Apply(s, a))
  {
    hide StoreIn;
    hide Holds;
    hide DropEntry;
    hide OnPubrec;
    hide Finished;
    hide Delivered;
  }

  lemma {:induction false} SilentAlong(s: State, run: seq<Action>)
    requires Silent(s) && Behaves(s, run, Conforms)
    ensures Silent(After(s, run))
    decreases |run|
  {
    hide Apply;
    hide Silent;
    if run != [] {
      SilentAlong(s, Front(run));
      SilentStep(After(s, Front(run)), Last(run));
    }
  }

  lemma {:induction false} NoRefusals(s: State, run: seq<Action>, n: nat)
    requires Behaves(s, run, UpTo(n))
    ensures Refusals(run) == 0
    decreases |run|
  {
    if run != [] {
      NoRefusals(s, Front(run), n);
    }
  }

  lemma OneAtATime(requestedMax: uint16, serverMax: uint16, storage: Option<seq<Exchange>>, run: seq<Action>, n: nat)
    requires Behaves(Connected(requestedMax, serverMax, storage), run, UpTo(n)) && (n <= 1 || serverMax == 0)
    ensures WithinQuota(After(Connected(requestedMax, serverMax, storage), run))
  {
    var s := Connected(requestedMax, serverMax, storage);
    Weaken(s, run, UpTo(n), Conforms);
    MaximaFixed(s, run);
    if serverMax == 0 {
      SilentAlong(s, run);
    } else {
      forall u: State, a: Action | UpTo(n)(u, a) ensures Serial(u, a) {
        assert |u.calls| == 0 ==> u.calls == map[];
      }
      Weaken(s, run, UpTo(n), Serial);
      NoRefusals(s, run, n);
      QuotaSafety(requestedMax, serverMax, storage, run);
    }
  }

  ghost predicate Promised(serverMax: uint16, n: nat) {
    forall requestedMax: uint16, storage: Option<seq<Exchange>>, run: seq<Action> ::
      Behaves(Connected(requestedMax, serverMax, storage), run, UpTo(n)) ==>
        WithinQuota(After(Connected(requestedMax, serverMax, storage), run))
  }

  // Section 4.9 of MQTT 5.0 as a client author can check it: against a conforming server that refuses nothing, every
  // run with at most n calls of Publish in progress stays within the quota if and only if n is at most 1 - or the
  // server takes no publish with QoS > 0 at all.
  lemma QuotaPromise(serverMax: uint16, n: nat)
    ensures Promised(serverMax, n) <==> n <= 1 || serverMax == 0
  {
    hide WithinQuota;
    if n <= 1 || serverMax == 0 {
      forall requestedMax: uint16, storage: Option<seq<Exchange>>, run: seq<Action>
        | Behaves(Connected(requestedMax, serverMax, storage), run, UpTo(n))
        ensures WithinQuota(After(Connected(requestedMax, serverMax, storage), run))
      {
        OneAtATime(requestedMax, serverMax, storage, run, n);
      }
    } else {
      OverlapBroken(serverMax, n);
    }
  }

  lemma OverlapBroken(max: uint16, n: nat)
    requires max >= 1 && n >= 2
    ensures !Promised(max, n)
  {
    OverlapBreaks(max, false);
    hide Possible;
    hide Throughout;
    hide After;
    Weaken(Base(max, false), OverlapRun(max), ProperUpTo(2), UpTo(n));
    assert !WithinQuota(After(Connected(0, max, None), OverlapRun(max)));
  }

  // ---------- Overlapping calls with storage ----------

  // The publishes outstanding, and those the calls are about to send, have identifiers other than 0.
  ghost predicate OpenIdentified(s: State) {
    && (forall e <- s.open :: e.id != 0)
    && (forall i <- s.calls :: !s.calls[i].Unsettled? && s.calls[i].qos > 0 ==> s.calls[i].id != 0)
  }

  lemma IdentifiedCall(s: State, a: Action)
    requires Enabled(s, a) && OpenIdentified(s) && Identified(s, a) && CallAction(a)
    ensures OpenIdentified(Apply(s, a))
  {
    hide Holds;
    hide StoreIn;
    hide WakeEnabled;
    hide Credit;
    hide DropEntry;
    hide Finished;
    hide OnPubrec;
    hide OnPublish;
    hide OnPubrel;
  }

  lemma IdentifiedAck(s: State, wake: Option<nat>, e: Exchange, id: uint16)
    requires OpenIdentified(s)
    ensures OpenIdentified(DropEntry(Finished(Credit(s, wake), e), id))
  {
    hide DropEntry;
  }

  lemma IdentifiedPubrec(s: State, id: uint16, code: byte)
    requires OpenIdentified(s) && Entry(id, StoredPublish(2)) in s.open
    ensures OpenIdentified(OnPubrec(s, id, code))
  {
    hide DropEntry;
    hide StoreEntry;
    hide Holds;
  }

  lemma IdentifiedStep(s: State, a: Action)
    requires Enabled(s, a) && OpenIdentified(s) && Conforms(s, a) && Identified(s, a)
    ensures OpenIdentified(Apply(s, a))
  {
    hide DropEntry;
    hide Credit;
    hide Finished;
    hide OnPubrec;
    hide OnPublish;
    hide OnPubrel;
    hide Persisted;
    hide SendOk;
    hide SendFailed;
    hide WakeEnabled;
    if CallAction(a) {
      IdentifiedCall(s, a);
    } else if a.RecvPubrec? {
      IdentifiedPubrec(s, a.id, a.code);
    } else if a.RecvPuback? || a.RecvPubcomp? {
      IdentifiedAck(s, a.wake, Entry(a.id, if a.RecvPuback? then StoredPublish(1) else StoredPubrec), a.id);
    }
  }

  lemma {:induction false} IdentifiedAlong(s: State, run: seq<Action>)
    requires OpenIdentified(s) && Behaves(s, run, Tidy)
    ensures OpenIdentified(After(s, run))
    decreases |run|
  {
    hide Apply;
    hide OpenIdentified;
    if run != [] {
      IdentifiedAlong(s, Front(run));
      IdentifiedStep(After(s, Front(run)), Last(run));
    }
  }

  // Exchanges told apart by identifiers from a set are no more than the set has.
  lemma {:induction false} AsManyIds(m: multiset<Exchange>, ids: set<int>)
    requires forall e <- m :: m[e] == 1 && e.id in ids
    requires forall e <- m, f <- m :: e.id == f.id ==> e == f
    ensures |m| <= |ids|
    decreases |m|
  {
    if m != multiset{} {
      var e :| e in m;
      var m' := m - multiset{e};
      assert forall f <- m' :: f in m && m'[f] == m[f] && f != e;
      AsManyIds(m', ids - {e.id});
      assert |m'| == |m| - 1;
    }
  }

  function Ids(n: nat): set<int> {
    if n == 0 then {} else Ids(n - 1) + {n}
  }

  lemma {:induction false} IdCount(n: nat)
    ensures |Ids(n)| == n && forall i: int :: i in Ids(n) <==> 1 <= i <= n
  {
    if n > 0 {
      IdCount(n - 1);
    }
  }

  lemma OpenByIds(s: State)
    requires OpenIdentified(s)
    requires forall e <- Live(s) :: Live(s)[e] == 1
    requires forall e <- Live(s), f <- Live(s) :: e.id == f.id ==> e == f
    ensures |s.open| <= 65_535
  {
    IdCount(65_535);
    hide Ids;
    assert s.open <= Live(s);
    assert forall e <- s.open :: e in Live(s);
    hide Live;
    AsManyIds(s.open, Ids(65_535));
  }

  // With storage and proper identifiers there are never more publishes outstanding than identifiers.
  lemma IdsRunOut(requestedMax: uint16, serverMax: uint16, store: seq<Exchange>, run: seq<Action>)
    requires Distinct(store) && Behaves(Connected(requestedMax, serverMax, Some(store)), run, Tidy)
    requires !After(Connected(requestedMax, serverMax, Some(store)), run).halted
    ensures |After(Connected(requestedMax, serverMax, Some(store)), run).open| <= 65_535
  {
    hide Distinct;
    hide Live;
    hide OpenIdentified;
    var s0 := Connected(requestedMax, serverMax, Some(store));
    Weaken(s0, run, Tidy, Conforms);
    Weaken(s0, run, Tidy, FreshInbound);
    StorageFaithful(requestedMax, serverMax, store, run);
    NothingOpen(s0);
    IdentifiedAlong(s0, run);
    hide Possible;
    hide Throughout;
    hide After;
    OpenByIds(After(s0, run));
  }

  lemma NothingOpen(s: State)
    requires s.open == multiset{} && s.calls == map[]
    ensures OpenIdentified(s)
  {
  }

  // An error in Poll leaves what is outstanding as it was.
  lemma HaltKeepsOpen(s: State, a: Action)
    requires Enabled(s, a) && a.RecvPublish?
    ensures Apply(s, a).open == s.open
  {
  }

  lemma IdsRunOutAlways(requestedMax: uint16, serverMax: uint16, store: seq<Exchange>, run: seq<Action>)
    requires Distinct(store) && Behaves(Connected(requestedMax, serverMax, Some(store)), run, Tidy)
    ensures |After(Connected(requestedMax, serverMax, Some(store)), run).open| <= 65_535
  {
    var s0 := Connected(requestedMax, serverMax, Some(store));
    if After(s0, run).halted {
      Weaken(s0, run, Tidy, Conforms);
      Weaken(s0, run, Tidy, FreshInbound);
      StorageFaithful(requestedMax, serverMax, store, run);
      IdsRunOut(requestedMax, serverMax, store, Front(run));
      HaltKeepsOpen(After(s0, Front(run)), Last(run));
    } else {
      IdsRunOut(requestedMax, serverMax, store, run);
    }
  }

  ghost predicate PromisedStored(serverMax: uint16, n: nat) {
    forall requestedMax: uint16, store: seq<Exchange>, run: seq<Action> ::
      Distinct(store) && Behaves(Connected(requestedMax, serverMax, Some(store)), run, ProperUpTo(n)) ==>
        |After(Connected(requestedMax, serverMax, Some(store)), run).open| <= serverMax
  }

  // The same for a client with storage, with no identifier 0 and none reused by inbound publishes: the publishes
  // outstanding stay within the server's receive maximum if and only if there is at most one call at a time, or the
  // maximum is 0, or it is as large as the number of identifiers there are.
  lemma QuotaPromiseStored(serverMax: uint16, n: nat)
    ensures PromisedStored(serverMax, n) <==> n <= 1 || serverMax == 0 || serverMax == 65_535
  {
    if n <= 1 || serverMax == 0 || serverMax == 65_535 {
      forall requestedMax: uint16, store: seq<Exchange>, run: seq<Action>
        | Distinct(store) && Behaves(Connected(requestedMax, serverMax, Some(store)), run, ProperUpTo(n))
        ensures |After(Connected(requestedMax, serverMax, Some(store)), run).open| <= serverMax
      {
        WithinStored(requestedMax, serverMax, store, run, n);
      }
    } else {
      OverlapBrokenStored(serverMax, n);
    }
  }

  lemma WithinStored(requestedMax: uint16, serverMax: uint16, store: seq<Exchange>, run: seq<Action>, n: nat)
    requires Distinct(store) && Behaves(Connected(requestedMax, serverMax, Some(store)), run, ProperUpTo(n))
    requires n <= 1 || serverMax == 0 || serverMax == 65_535
    ensures |After(Connected(requestedMax, serverMax, Some(store)), run).open| <= serverMax
  {
    if n <= 1 || serverMax == 0 {
      Weaken(Connected(requestedMax, serverMax, Some(store)), run, ProperUpTo(n), UpTo(n));
      OneAtATime(requestedMax, serverMax, Some(store), run, n);
      MaximaFixed(Connected(requestedMax, serverMax, Some(store)), run);
    } else {
      Weaken(Connected(requestedMax, serverMax, Some(store)), run, ProperUpTo(n), Tidy);
      IdsRunOutAlways(requestedMax, serverMax, store, run);
    }
  }

  lemma OverlapBrokenStored(max: uint16, n: nat)
    requires 1 <= max < 65_535 && n >= 2
    ensures !PromisedStored(max, n)
  {
    OverlapBreaks(max, true);
    hide Possible;
    hide Throughout;
    hide After;
    Weaken(Base(max, true), OverlapRun(max), ProperUpTo(2), ProperUpTo(n));
    assert |After(Connected(0, max, Some([])), OverlapRun(max)).open| > max;
  }

  // ---------- Failing PUBRECs ----------

  ghost predicate SerialConforms(s: State, a: Action) {
    Serial(s, a) && Conforms(s, a)
  }

  ghost predicate SerialProper(s: State, a: Action) {
    SerialConforms(s, a) && Identified(s, a) && FreshInbound(s, a)
  }

  // A QoS 2 publish refused by its PUBREC, whose PUBCOMP gives a second credit while another publish is on its way.
  function RefusalCycle(id: uint16, other: uint16): seq<Action> {
    PublishRun(2, id) + [RecvPubrec(id, 0x87)] + PublishRun(1, other) + [RecvPubcomp(id, None)]
  }

  // A PUBREC with any reason code, when its identifier is stored.
  lemma PubrecEffect(s: State, id: uint16, code: byte, storage: Option<seq<Exchange>>)
    requires s.sendQuota < s.serverMax && !s.halted
    requires match s.storage
             case None => storage.None?
             case Some(list) =>
               && Holds(list, id) && !Holds(DropFrom(list, id), id)
               && storage == Some(DropFrom(list, id) + [Entry(id, StoredPubrec)])
    ensures var e, f := Entry(id, StoredPublish(2)), Entry(id, StoredPubrec);
      OnPubrec(s, id, code) ==
      s.(sendQuota := if code > 0x80 then s.sendQuota + 1 else s.sendQuota, storage := storage,
         open := if code < 0x80 then s.open - multiset{e} + multiset{f} else s.open - multiset{e},
         refused := if code < 0x80 then s.refused else s.refused + multiset{f})
  {
    if s.storage.Some? {
      StoreInEnd(DropFrom(s.storage.value, id), Entry(id, StoredPubrec));
    }
    hide Holds;
    hide DropFrom;
    hide StoreIn;
  }

  lemma RefusedIdle(max: uint16, stored: bool, quota: uint16, open: multiset<Exchange>, list: seq<Exchange>,
                    id: uint16)
    requires quota < max && (stored ==> Distinct(list) && !Holds(list, id))
    ensures var e, f := Entry(id, StoredPublish(2)), Entry(id, StoredPubrec);
      OnPubrec(Idle(max, stored, quota, open + multiset{e}, multiset{}, list + [e]), id, 0x87)
      == Idle(max, stored, quota + 1, open, multiset{f}, list + [f])
  {
    hide OnPubrec;
    hide Holds;
    hide Distinct;
    hide DropFrom;
    var e, f := Entry(id, StoredPublish(2)), Entry(id, StoredPubrec);
    if stored {
      DropLast(list, e);
    }
    PubrecEffect(Idle(max, stored, quota, open + multiset{e}, multiset{}, list + [e]), id, 0x87,
                  if stored then Some(list + [f]) else None);
    assert open + multiset{e} - multiset{e} == open;
    assert multiset{} + multiset{f} == multiset{f};
  }

  lemma RefusedState(max: uint16, stored: bool, quota: uint16, open: multiset<Exchange>, list: seq<Exchange>,
                     id: uint16)
    requires quota < max && (stored ==> Distinct(list) && !Holds(list, id))
    ensures var e, f := Entry(id, StoredPublish(2)), Entry(id, StoredPubrec);
      var t, a := Idle(max, stored, quota, open + multiset{e}, multiset{}, list + [e]), RecvPubrec(id, 0x87);
      Enabled(t, a) && SerialProper(t, a)
      && Apply(t, a) == Idle(max, stored, quota + 1, open, multiset{f}, list + [f])
  {
    RefusedIdle(max, stored, quota, open, list, id);
    hide OnPubrec;
    hide OnPublish;
    hide OnPubrel;
    hide Credit;
    hide Finished;
    hide DropEntry;
    hide Holds;
    hide Distinct;
    hide Persisted;
    hide SendOk;
    hide SendFailed;
  }

  lemma StoreInEnd(list: seq<Exchange>, e: Exchange)
    requires !Holds(list, e.id)
    ensures StoreIn(list, e.id, e.packet) == list + [e]
  {
  }

  lemma DropLast(list: seq<Exchange>, e: Exchange)
    requires Distinct(list) && !Holds(list, e.id)
    ensures Distinct(list + [e]) && Holds(list + [e], e.id) && DropFrom(list + [e], e.id) == list
  {
    StoreAdds(list, e);
    DropSnoc(list, e, e.id);
    IndexOfSnoc(list, e, e.id);
  }

  lemma DropBeforeLast(list: seq<Exchange>, e: Exchange, f: Exchange)
    requires Distinct(list) && !Holds(list, e.id) && !Holds(list + [e], f.id)
    ensures Holds(list + [e] + [f], e.id) && DropFrom(list + [e] + [f], e.id) == list + [f]
  {
    DropLast(list, e);
    StoreAdds(list + [e], f);
    DropSnoc(list + [e], f, e.id);
    IndexOfSnoc(list + [e], f, e.id);
    IndexOfSnoc(list, e, e.id);
    IndexOfSnoc(list, e, f.id);
  }

  lemma CompletedState(max: uint16, stored: bool, open: multiset<Exchange>, list: seq<Exchange>, id: uint16,
                       sent: Exchange)
    requires max >= 1 && Entry(id, StoredPubrec) !in open
    requires stored ==> Distinct(list) && !Holds(list, id) && !Holds(list + [Entry(id, StoredPubrec)], sent.id)
    ensures var f := Entry(id, StoredPubrec);
      var t, a := Idle(max, stored, 0, open, multiset{f}, list + [f] + [sent]), RecvPubcomp(id, None);
      Enabled(t, a) && SerialProper(t, a)
      && Apply(t, a) == Idle(max, stored, 1, open, multiset{}, list + [sent])
  {
    var f := Entry(id, StoredPubrec);
    assert multiset{f} - multiset{f} == multiset{};
    assert f in multiset{f};
    if stored {
      DropBeforeLast(list, f, sent);
    }
  }

  lemma CycleLeads(max: uint16, stored: bool, run: seq<Action>, open: multiset<Exchange>, list: seq<Exchange>,
                   id: uint16, other: uint16)
    requires max >= 1 && Leads(Base(max, stored), run, Idle(max, stored, 1, open, multiset{}, list), SerialProper)
    requires Entry(id, StoredPubrec) !in open && id != 0 && other != 0
    requires stored ==> Distinct(list) && !Holds(list, id) && !Holds(list + [Entry(id, StoredPubrec)], other)
    ensures var sent := Entry(other, StoredPublish(1));
      Leads(Base(max, stored), run + RefusalCycle(id, other),
            Idle(max, stored, 1, open + multiset{sent}, multiset{}, list + [sent]), SerialProper)
  {
    hide Leads;
    hide PublishRun;
    hide Apply;
    hide Enabled;
    hide SerialProper;
    hide Idle;
    hide Holds;
    hide Distinct;
    var s, none: multiset<Exchange> := Base(max, stored), multiset{};
    var e, f, sent := Entry(id, StoredPublish(2)), Entry(id, StoredPubrec), Entry(other, StoredPublish(1));
    var r1 := run + PublishRun(2, id);
    var r2 := r1 + [RecvPubrec(id, 0x87)];
    var r3 := r2 + PublishRun(1, other);
    SerialPublish(2, id);
    SerialPublish(1, other);
    PublishLeads(max, stored, run, 1, open, none, list, SerialProper, 2, id);
    RefusedState(max, stored, 0, open, list, id);
    Extend(s, r1, Idle(max, stored, 0, open + multiset{e}, none, list + [e]), SerialProper, RecvPubrec(id, 0x87));
    PublishLeads(max, stored, r2, 1, open, multiset{f}, list + [f], SerialProper, 1, other);
    CompletedState(max, stored, open + multiset{sent}, list, id, sent);
    Extend(s, r3, Idle(max, stored, 0, open + multiset{sent}, multiset{f}, list + [f] + [sent]), SerialProper,
           RecvPubcomp(id, None));
    assert run + RefusalCycle(id, other) == r3 + [RecvPubcomp(id, None)];
  }

  lemma SerialPublish(qos: QoS, id: uint16)
    requires id != 0
    ensures forall u: State, a <- PublishRun(qos, id) :: (a.Enter? ==> u.calls == map[]) ==> SerialProper(u, a)
  {
    PublishActions(qos, id);
  }

  // All credits but one used up, and k such cycles; the identifiers in use at a time are distinct while there are any.
  function RefusalsRun(max: uint16, k: nat): seq<Action>
    requires max >= 1
  {
    if k == 0 then FillRun(max - 1)
    else RefusalsRun(max, k - 1) + RefusalCycle(Id(max - 1 + k), Id(max - 1 + k - 1))
  }

  lemma SerialCalls()
    ensures AllowsCalls(SerialProper)
  {
  }

  lemma FilledNext(n: nat, id: uint16)
    ensures Filled(n + 1) == Filled(n) + multiset{Entry(Id(n), StoredPublish(1))}
    ensures FilledList(n + 1) == FilledList(n) + [Entry(Id(n), StoredPublish(1))]
    ensures Entry(id, StoredPubrec) !in Filled(n)
  {
    FilledSize(n);
  }

  lemma {:induction false} ListDistinct(n: nat)
    requires n <= 65_535
    ensures Distinct(FilledList(n))
  {
    if n > 0 {
      ListDistinct(n - 1);
      NextAbsent(n - 1);
      StoreAdds(FilledList(n - 1), Entry(Id(n - 1), StoredPublish(1)));
    }
  }

  // The identifiers of the two publishes of a cycle are free.
  lemma FreeIds(n: nat)
    requires n + 1 < 65_535
    ensures Distinct(FilledList(n)) && !Holds(FilledList(n), Id(n + 1))
    ensures !Holds(FilledList(n) + [Entry(Id(n + 1), StoredPubrec)], Id(n))
  {
    ListDistinct(n);
    hide Holds;
    forall j: nat | j < n ensures Id(j) != Id(n + 1) {
      IdsDistinct(j, n + 1);
    }
    Absent(n, Id(n + 1));
    NextAbsent(n);
    IdsDistinct(n, n + 1);
    HoldsSnoc(FilledList(n), Entry(Id(n + 1), StoredPubrec), Id(n));
  }

  lemma HoldsSnoc(list: seq<Exchange>, e: Exchange, id: uint16)
    ensures Holds(list + [e], id) <==> Holds(list, id) || e.id == id
  {
    IndexOfSnoc(list, e, id);
  }

  lemma {:induction false} RefusalsLead(max: uint16, stored: bool, k: nat)
    requires max >= 1 && (stored ==> max + k <= 65_535)
    ensures Leads(Base(max, stored), RefusalsRun(max, k),
                  Idle(max, stored, 1, Filled(max - 1 + k), multiset{}, FilledList(max - 1 + k)), SerialProper)
  {
    hide Leads;
    hide RefusalCycle;
    hide FillRun;
    hide Filled;
    hide FilledList;
    hide Id;
    hide Base;
    hide Idle;
    hide Holds;
    hide Distinct;
    SerialCalls();
    hide SerialProper;
    hide AllowsCalls;
    if k == 0 {
      FillLeads(max, stored, max - 1, SerialProper);
    } else {
      var n := max - 1 + k - 1;
      RefusalsLead(max, stored, k - 1);
      FilledNext(n, Id(n + 1));
      if stored {
        FreeIds(n);
      }
      CycleLeads(max, stored, RefusalsRun(max, k - 1), Filled(n), FilledList(n), Id(n + 1), Id(n));
    }
  }

  lemma {:induction false} RefusalsAppend(a: seq<Action>, b: seq<Action>)
    ensures Refusals(a + b) == Refusals(a) + Refusals(b)
  {
    if b == [] {
      assert a + b == a;
    } else {
      RefusalsAppend(a, Front(b));
      assert Front(a + b) == a + Front(b);
    }
  }

  lemma {:induction false} NoneRefused(run: seq<Action>)
    requires forall a <- run :: Refusal(a) == 0
    ensures Refusals(run) == 0
  {
    if run != [] {
      NoneRefused(Front(run));
    }
  }

  lemma CycleRefusals(id: uint16, other: uint16)
    ensures Refusals(RefusalCycle(id, other)) == 1
  {
    var failing, after := RecvPubrec(id, 0x87), PublishRun(1, other) + [RecvPubcomp(id, None)];
    NoneRefused(PublishRun(2, id));
    NoneRefused(after);
    RefusalsAppend(PublishRun(2, id) + [failing], after);
    assert Front(PublishRun(2, id) + [failing]) == PublishRun(2, id);
    assert PublishRun(2, id) + [failing] + after == RefusalCycle(id, other);
  }

  lemma {:induction false} FillRefusals(k: nat)
    ensures Refusals(FillRun(k)) == 0
  {
    if k > 0 {
      FillRefusals(k - 1);
      NoneRefused(PublishRun(1, Id(k - 1)));
      RefusalsAppend(FillRun(k - 1), PublishRun(1, Id(k - 1)));
    }
  }

  lemma {:induction false} CountRefusals(max: uint16, k: nat)
    requires max >= 1
    ensures Refusals(RefusalsRun(max, k)) == k
  {
    hide RefusalCycle;
    if k == 0 {
      FillRefusals(max - 1);
    } else {
      CountRefusals(max, k - 1);
      CycleRefusals(Id(max - 1 + k), Id(max - 1 + k - 1));
      RefusalsAppend(RefusalsRun(max, k - 1), RefusalCycle(Id(max - 1 + k), Id(max - 1 + k - 1)));
    }
  }

  function ExcessRun(max: uint16, k: nat): seq<Action>
    requires max >= 1
  {
    RefusalsRun(max, k) + SendRun(0, 1, Id(max - 1 + k))
  }

  lemma ExcessRefusals(max: uint16, k: nat)
    requires max >= 1
    ensures Refusals(ExcessRun(max, k)) == k
  {
    var last := SendRun(0, 1, Id(max - 1 + k));
    CountRefusals(max, k);
    NoneRefused(last);
    RefusalsAppend(RefusalsRun(max, k), last);
  }

  // For every receive maximum and every k a serial run with k failing PUBRECs leaves k publishes too many; with a
  // storage as long as there are that many identifiers.
  lemma RefusalBreaks(max: uint16, stored: bool, k: nat)
    requires max >= 1 && (stored ==> max + k <= 65_535)
    ensures Refusals(ExcessRun(max, k)) == k
    ensures exists t :: Leads(Base(max, stored), ExcessRun(max, k), t, SerialProper) && |t.open| == max + k
  {
    hide Leads;
    hide RefusalsRun;
    hide Filled;
    hide FilledList;
    hide Id;
    hide Holds;
    ExcessRefusals(max, k);
    var n := max - 1 + k;
    var t := Idle(max, stored, 1, Filled(n), multiset{}, FilledList(n));
    RefusalsLead(max, stored, k);
    if stored {
      NextAbsent(n);
    }
    SendLeads(Base(max, stored), RefusalsRun(max, k), t, SerialProper, 0, 1, Id(n));
    FilledNext(n, 0);
    FilledSize(n + 1);
    assert |Sent(t, 0, 1, Id(n)).open| == max + k;
  }

  ghost predicate Bounded(serverMax: uint16, k: nat, bound: nat) {
    forall requestedMax: uint16, storage: Option<seq<Exchange>>, run: seq<Action> ::
      Behaves(Connected(requestedMax, serverMax, storage), run, SerialConforms) && Refusals(run) == k ==>
        |After(Connected(requestedMax, serverMax, storage), run).open| <= bound
  }

  // The bound of QuotaSafety is exact: serial runs with k failing PUBRECs against a conforming server keep the
  // publishes outstanding within a bound if and only if that is at least the receive maximum and k.
  lemma RefusalBound(serverMax: uint16, k: nat, bound: nat)
    requires serverMax >= 1
    ensures Bounded(serverMax, k, bound) <==> serverMax + k <= bound
  {
    if serverMax + k <= bound {
      forall requestedMax: uint16, storage: Option<seq<Exchange>>, run: seq<Action>
        | Behaves(Connected(requestedMax, serverMax, storage), run, SerialConforms) && Refusals(run) == k
        ensures |After(Connected(requestedMax, serverMax, storage), run).open| <= bound
      {
        Weaken(Connected(requestedMax, serverMax, storage), run, SerialConforms, Serial);
        Weaken(Connected(requestedMax, serverMax, storage), run, SerialConforms, Conforms);
        QuotaSafety(requestedMax, serverMax, storage, run);
      }
    } else {
      RefusalBreaks(serverMax, false, k);
      Weaken(Connected(0, serverMax, None), ExcessRun(serverMax, k), SerialProper, SerialConforms);
    }
  }

  ghost predicate BoundedStored(serverMax: uint16, k: nat, bound: nat) {
    forall requestedMax: uint16, store: seq<Exchange>, run: seq<Action> ::
      Distinct(store) && Behaves(Connected(requestedMax, serverMax, Some(store)), run, SerialProper)
      && Refusals(run) == k ==>
        |After(Connected(requestedMax, serverMax, Some(store)), run).open| <= bound
  }

  // A failing PUBREC that costs nothing: its PUBCOMP finds the quota at the maximum.
  function WasteCycle(): seq<Action> {
    PublishRun(2, Id(0)) + [RecvPubrec(Id(0), 0x87)] + [RecvPubcomp(Id(0), None)]
  }

  function WasteRun(k: nat): seq<Action> {
    if k == 0 then [] else WasteRun(k - 1) + WasteCycle()
  }

  lemma {:induction false} Join(s: State, a: seq<Action>, t: State, b: seq<Action>, u: State,
                                p: (State, Action) -> bool)
    requires Leads(s, a, t, p) && Leads(t, b, u, p)
    ensures Leads(s, a + b, u, p)
    decreases |b|
  {
    hide Enabled;
    hide Apply;
    if b == [] {
      assert a + b == a;
    } else {
      var before := After(t, Front(b));
      Join(s, a, t, Front(b), before, p);
      Extend(s, a + Front(b), before, p, Last(b));
      assert a + Front(b) + [Last(b)] == a + b;
    }
  }

  lemma WastedState(max: uint16, stored: bool, id: uint16)
    requires max >= 1
    ensures var f := Entry(id, StoredPubrec);
      var t, a := Idle(max, stored, max, multiset{}, multiset{f}, [f]), RecvPubcomp(id, None);
      Enabled(t, a) && SerialProper(t, a) && Apply(t, a) == Base(max, stored)
  {
    hide Holds;
    hide DropFrom;
    hide Distinct;
    hide OnPubrec;
    hide OnPublish;
    hide OnPubrel;
    hide Persisted;
    hide SendOk;
    hide SendFailed;
    var f := Entry(id, StoredPubrec);
    NothingHeld(id);
    DropLast([], f);
    assert [] + [f] == [f];
    assert multiset{f} - multiset{f} == multiset{} && f in multiset{f};
  }

  lemma NothingHeld(id: uint16)
    ensures Distinct<Stored>([]) && !Holds<Stored>([], id)
  {
  }

  lemma WasteLeads(max: uint16, stored: bool)
    requires max >= 1
    ensures Leads(Base(max, stored), WasteCycle(), Base(max, stored), SerialProper)
  {
    hide Leads;
    hide PublishRun;
    hide Apply;
    hide Enabled;
    hide SerialProper;
    hide Holds;
    var s, id, none: multiset<Exchange> := Base(max, stored), Id(0), multiset{};
    var e, f := Entry(id, StoredPublish(2)), Entry(id, StoredPubrec);
    Start(s, SerialProper);
    assert s == Idle(max, stored, max, none, none, []);
    SerialPublish(2, id);
    NothingHeld(id);
    PublishLeads(max, stored, [], max, none, none, [], SerialProper, 2, id);
    assert none + multiset{e} == multiset{e} && [] + [e] == [e] && [] + [f] == [f];
    assert [] + PublishRun(2, id) == PublishRun(2, id);
    RefusedState(max, stored, max - 1, none, [], id);
    WastedState(max, stored, id);
    Extend(s, PublishRun(2, id), Idle(max, stored, max - 1, multiset{e}, none, [e]), SerialProper,
           RecvPubrec(id, 0x87));
    Extend(s, PublishRun(2, id) + [RecvPubrec(id, 0x87)], Idle(max, stored, max, none, multiset{f}, [f]), SerialProper,
           RecvPubcomp(id, None));
  }

  lemma {:induction false} WasteRunLeads(max: uint16, stored: bool, k: nat)
    requires max >= 1
    ensures Leads(Base(max, stored), WasteRun(k), Base(max, stored), SerialProper)
  {
    hide Leads;
    hide WasteCycle;
    hide SerialProper;
    if k == 0 {
      Start(Base(max, stored), SerialProper);
    } else {
      WasteRunLeads(max, stored, k - 1);
      WasteLeads(max, stored);
      Join(Base(max, stored), WasteRun(k - 1), Base(max, stored), WasteCycle(), Base(max, stored), SerialProper);
    }
  }

  lemma {:induction false} WasteRefusals(k: nat)
    ensures Refusals(WasteRun(k)) == k
  {
    if k > 0 {
      var first, failing, last := PublishRun(2, Id(0)), RecvPubrec(Id(0), 0x87), RecvPubcomp(Id(0), None);
      WasteRefusals(k - 1);
      NoneRefused(first);
      RefusalsAppend(WasteRun(k - 1), WasteCycle());
      assert Front(first + [failing]) == first;
      assert Front(WasteCycle()) == first + [failing] && Last(WasteCycle()) == last;
    }
  }

  // With storage the identifiers are the other limit.
  function StoredBound(serverMax: uint16, k: nat): nat {
    if serverMax + k <= 65_535 then serverMax + k else 65_535
  }

  function WastefulRun(max: uint16, k: nat): seq<Action>
    requires max >= 1
  {
    var used := StoredBound(max, k) - max;
    WasteRun(k - used) + ExcessRun(max, used)
  }

  lemma WastefulRefusals(max: uint16, k: nat)
    requires max >= 1
    ensures Refusals(WastefulRun(max, k)) == k
  {
    hide WasteRun;
    hide ExcessRun;
    var used := StoredBound(max, k) - max;
    WasteRefusals(k - used);
    ExcessRefusals(max, used);
    RefusalsAppend(WasteRun(k - used), ExcessRun(max, used));
  }

  lemma StoredExcess(max: uint16, k: nat)
    requires max >= 1
    ensures exists t :: Leads(Base(max, true), WastefulRun(max, k), t, SerialProper) && |t.open| == StoredBound(max, k)
  {
    hide SerialProper;
    hide Leads;
    hide Base;
    hide WasteRun;
    hide ExcessRun;
    var used := StoredBound(max, k) - max;
    WasteRunLeads(max, true, k - used);
    RefusalBreaks(max, true, used);
    var t :| Leads(Base(max, true), ExcessRun(max, used), t, SerialProper) && |t.open| == max + used;
    Join(Base(max, true), WasteRun(k - used), Base(max, true), ExcessRun(max, used), t, SerialProper);
  }

  // For a client with storage and proper identifiers the bound is exact too, and there are never more publishes
  // outstanding than identifiers.
  lemma RefusalBoundStored(serverMax: uint16, k: nat, bound: nat)
    requires serverMax >= 1
    ensures BoundedStored(serverMax, k, bound) <==> StoredBound(serverMax, k) <= bound
  {
    if StoredBound(serverMax, k) <= bound {
      RefusalBound(serverMax, k, serverMax + k);
      forall requestedMax: uint16, store: seq<Exchange>, run: seq<Action>
        | Distinct(store) && Behaves(Connected(requestedMax, serverMax, Some(store)), run, SerialProper)
          && Refusals(run) == k
        ensures |After(Connected(requestedMax, serverMax, Some(store)), run).open| <= bound
      {
        var s := Connected(requestedMax, serverMax, Some(store));
        Weaken(s, run, SerialProper, SerialConforms);
        Weaken(s, run, SerialProper, Tidy);
        IdsRunOutAlways(requestedMax, serverMax, store, run);
      }
    } else {
      StoredExcess(serverMax, k);
      WastefulRefusals(serverMax, k);
      assert Behaves(Connected(0, serverMax, Some([])), WastefulRun(serverMax, k), SerialProper);
    }
  }

  // ---------- The lost credit ----------

  // A PUBACK that overtakes the decrement of the publish it acknowledges.
  function LeakRun(): seq<Action> {
    SendRun(0, 1, Id(0)) + [RecvPuback(Id(0), None)] + [Settle(0)]
  }

  // For every receive maximum it costs a credit: nothing is outstanding, and the quota is below the maximum.
  lemma CreditLeaks(max: uint16)
    requires max >= 1
    ensures Leads(Connected(0, max, None), LeakRun(), Idle(max, false, max - 1, multiset{}, multiset{}, []),
                  SerialUnrefused)
  {
    hide Leads;
    hide SendRun;
    hide Id;
    var s, e := Connected(0, max, None), Entry(Id(0), StoredPublish(1));
    Start(s, SerialUnrefused);
    SerialSend(s, Id(0));
    var t, u := Sent(s, 0, 1, Id(0)), Sent(s, 0, 1, Id(0)).(open := multiset{});
    assert t.open == multiset{e} && u.calls - {0} == map[];
    Overtaken(t, e);
    SendLeads(s, [], s, SerialUnrefused, 0, 1, Id(0));
    assert [] + SendRun(0, 1, Id(0)) == SendRun(0, 1, Id(0));
    LastDecrement(u);
    hide Enabled;
    hide Apply;
    hide SerialUnrefused;
    Extend(s, SendRun(0, 1, Id(0)), t, SerialUnrefused, RecvPuback(Id(0), None));
    Extend(s, SendRun(0, 1, Id(0)) + [RecvPuback(Id(0), None)], u, SerialUnrefused, Settle(0));
  }

  lemma SerialSend(s: State, id: uint16)
    requires s.calls == map[]
    ensures forall u: State, a <- SendRun(0, 1, id) :: (a.Enter? ==> u == s) ==> SerialUnrefused(u, a)
  {
  }

  lemma LastDecrement(u: State)
    requires !u.halted && u.calls == map[0 := Unsettled] && u.sendQuota > 0
    ensures Enabled(u, Settle(0)) && SerialUnrefused(u, Settle(0))
    ensures Apply(u, Settle(0)) == u.(sendQuota := u.sendQuota - 1, calls := map[])
  {
    assert u.calls - {0} == map[];
  }

  lemma Overtaken(t: State, e: Exchange)
    requires !t.halted && t.conn.None? && t.storage.None? && t.sendQuota == t.serverMax && t.open == multiset{e}
    requires e.packet == StoredPublish(1)
    ensures var a := RecvPuback(e.id, None);
      Enabled(t, a) && SerialUnrefused(t, a) && Apply(t, a) == t.(open := multiset{})
  {
    assert multiset{e} - multiset{e} == multiset{};
    assert e in multiset{e};
  }

  // With a receive maximum of 1 that was the last one: whatever the client and a conforming server do from then on, no
  // packet with QoS > 0 is ever sent again.
  lemma StarvedForever(run: seq<Action>)
    requires Behaves(Idle(1, false, 0, multiset{}, multiset{}, []), run, Conforms)
    ensures var s := After(Idle(1, false, 0, multiset{}, multiset{}, []), run);
      s.open == multiset{} && s.sendQuota == 0 && forall i <- s.calls :: !NeedsQuota(s.calls[i])
  {
    SilentAlong(Idle(1, false, 0, multiset{}, multiset{}, []), run);
  }

  // ---------- The receive quota ----------

  // k QoS 2 publishes come in.
  function ReceiveRun(k: nat): seq<Action> {
    if k == 0 then [] else ReceiveRun(k - 1) + [RecvPublish(2, Id(k))]
  }

  function Received(k: nat): multiset<Exchange> {
    if k == 0 then multiset{} else Received(k - 1) + multiset{Entry(Id(k), StoredPubrec)}
  }

  // Where they lead.
  function Taken(max: uint16, k: nat): State
    requires k <= max
  {
    Connected(0, max, None).(receiveQuota := max - k, inbound := Received(k))
  }

  lemma TakesOne(max: uint16, k: nat)
    requires 1 <= k <= max
    ensures var t, a := Taken(max, k - 1), RecvPublish(2, Id(k));
      Enabled(t, a) && Conforms(t, a) && Apply(t, a) == Taken(max, k)
  {
  }

  lemma {:induction false} ReceiveLeads(max: uint16, k: nat)
    requires k <= max
    ensures Leads(Connected(0, max, None), ReceiveRun(k), Taken(max, k), Conforms)
    ensures |Received(k)| == k
  {
    hide Leads;
    hide Apply;
    hide Enabled;
    hide Conforms;
    if k == 0 {
      Start(Connected(0, max, None), Conforms);
    } else {
      ReceiveLeads(max, k - 1);
      TakesOne(max, k);
      hide Taken;
      Extend(Connected(0, max, None), ReceiveRun(k - 1), Taken(max, k - 1), Conforms, RecvPublish(2, Id(k)));
    }
  }

  // For every receive maximum: QoS 2 publishes use up the quota, and the QoS 0 publish behind them takes it to 65535.
  lemma QoS0Wraps(max: uint16)
    ensures exists t ::
      && Leads(Connected(0, max, None), ReceiveRun(max) + [RecvPublish(0, 0)], t, Conforms)
      && !t.halted && t.receiveQuota == 0xFFFF && |t.inbound| == t.clientMax == max
  {
    hide Leads;
    var s := Connected(0, max, None);
    ReceiveLeads(max, max);
    Extend(s, ReceiveRun(max), Taken(max, max), Conforms, RecvPublish(0, 0));
  }
}
