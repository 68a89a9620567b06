// What the packet storage holds during a run of the flow-control machine, with any number of publishers.
module FlowStorage {
  import opened Bits
  import opened MemoryStorage
  import opened FlowControl

  // Between persisting and sending, a call's packet is in the storage but not outstanding.
  predicate InPreparation(c: Call) {
    !c.Entered? && !c.Unsettled? && c.qos > 0
  }

  function Preparing(calls: map<nat, Call>): set<nat> {
    set i | i in calls && InPreparation(calls[i])
  }

  function Prepared(c: Call): Exchange
    requires !c.Unsettled?
  {
    Entry(c.id, StoredPublish(c.qos))
  }

  // The staged packets are those of the calls in preparation, which have distinct identifiers.
  ghost predicate StagedInv(s: State) {
    && (forall i <- Preparing(s.calls) :: Prepared(s.calls[i]) in s.staged)
    && (forall i <- Preparing(s.calls), j <- Preparing(s.calls) :: s.calls[i].id == s.calls[j].id ==> i == j)
    && |s.staged| == |Preparing(s.calls)|
  }

  // What the storage ought to hold: an entry for each exchange that still has to end, for each packet being prepared,
  // for each QoS 2 publish awaiting PUBREL, and what no packet will ever remove.
  function Live(s: State): multiset<Exchange> {
    s.open + s.refused + s.staged + s.inbound + s.leftover
  }

  // It holds exactly that, and no two entries share an identifier.
  ghost predicate StoreExact(s: State) {
    s.halted || (s.storage.Some? && Distinct(s.storage.value) && multiset(s.storage.value) == Live(s))
  }

  // An inbound PUBLISH that Poll gets past the quota and identifier tests.
  predicate Accepted(s: State, bits: QoSBits, id: uint16) {
    (bits == 0 || s.receiveQuota > 0) && (id != 0 || bits == 0 || bits == 3)
  }

  // An inbound QoS > 0 publish comes with an identifier that is not in the storage.
  predicate FreshInbound(s: State, a: Action) {
    a.RecvPublish? && a.bits > 0 && Accepted(s, a.bits, a.id) ==>
      s.storage.Some? ==> !Holds(s.storage.value, a.id)
  }

  // ---------- Steps of a call ----------

  lemma HeldEntry(s: State, e: Exchange)
    requires !s.halted && StoreExact(s) && e in Live(s)
    ensures Holds(s.storage.value, e.id)
  {
    assert e in multiset(s.storage.value);
    IndexOfEntry(s.storage.value, e);
  }

  lemma PersistStores(s: State, i: nat)
    requires !s.halted && StoreExact(s) && i in s.calls && s.calls[i].Entered?
    ensures StoreExact(Persisted(s, i))
  {
    hide Holds;
    hide StoreIn;
    hide Distinct;
    var c := s.calls[i];
    if c.qos > 0 && !Holds(s.storage.value, c.id) {
      StoreAdds(s.storage.value, Entry(c.id, StoredPublish(c.qos)));
    }
  }

  lemma PersistStages(s: State, i: nat)
    requires !s.halted && StoreExact(s) && StagedInv(s) && i in s.calls && s.calls[i].Entered?
    ensures StagedInv(Persisted(s, i))
  {
    hide Holds;
    hide StoreIn;
    var c, s' := s.calls[i], Persisted(s, i);
    if c.qos > 0 && !Holds(s.storage.value, c.id) {
      forall j <- Preparing(s.calls) ensures s.calls[j].id != c.id {
        HeldEntry(s, Prepared(s.calls[j]));
      }
      assert Preparing(s'.calls) == Preparing(s.calls) + {i};
      assert i !in Preparing(s.calls);
    } else {
      assert Preparing(s'.calls) == Preparing(s.calls);
    }
  }

  // A call that sends, or fails to, takes its packet out of the staged ones.
  lemma Unstages(s: State, i: nat)
    requires StagedInv(s) && i in s.calls && s.calls[i].Ready?
    ensures s.calls[i].qos > 0 ==> Prepared(s.calls[i]) in s.staged
    ensures StagedInv(Unstaged(s, i))
  {
    var c, s' := s.calls[i], Unstaged(s, i);
    if c.qos > 0 {
      assert i in Preparing(s.calls);
      assert Preparing(s'.calls) == Preparing(s.calls) - {i};
      assert |s.staged - multiset{Prepared(c)}| == |s.staged| - 1;
    } else {
      assert Preparing(s'.calls) == Preparing(s.calls);
    }
  }

  // The staged packets and the calls in preparation are all the invariant is about.
  lemma SameStaged(s: State, s': State)
    requires StagedInv(s) && s'.staged == s.staged
    requires forall j :: j in Preparing(s'.calls) <==> j in Preparing(s.calls)
    requires forall j <- Preparing(s.calls) :: Prepared(s'.calls[j]) == Prepared(s.calls[j])
    ensures StagedInv(s')
  {
    assert Preparing(s'.calls) == Preparing(s.calls);
  }

  lemma MovesOut(s: State, e: Exchange)
    requires e in s.staged
    ensures s.staged - multiset{e} + multiset{e} == s.staged
    ensures Live(s.(staged := s.staged - multiset{e}, open := s.open + multiset{e})) == Live(s)
    ensures Live(s.(staged := s.staged - multiset{e}, leftover := s.leftover + multiset{e})) == Live(s)
  {
  }

  lemma SendKeeps(s: State, i: nat)
    requires !s.halted && StoreExact(s) && StagedInv(s) && i in s.calls && s.calls[i].Ready?
    ensures StoreExact(SendOk(s, i)) && StagedInv(SendOk(s, i))
    ensures StoreExact(SendFailed(s, i)) && StagedInv(SendFailed(s, i))
  {
    hide Distinct;
    Unstages(s, i);
    var c := s.calls[i];
    SameStaged(Unstaged(s, i), SendOk(s, i));
    SameStaged(Unstaged(s, i), SendFailed(s, i));
    if c.qos > 0 {
      MovesOut(s, Prepared(c));
    }
  }

  // The other steps of a call move it between the stages of preparation, or are none.
  lemma MovesWithin(s: State, a: Action)
    requires Enabled(s, a) && CallAction(a) && !a.Persist? && !a.Send? && !a.Fail?
    requires StoreExact(s) && StagedInv(s)
    ensures StoreExact(Apply(s, a)) && StagedInv(Apply(s, a))
  {
    hide Distinct;
    hide Persisted;
    hide SendOk;
    hide SendFailed;
    hide StagedInv;
    hide Preparing;
    var s' := Apply(s, a);
    assert s' == s.(conn := s'.conn, calls := s'.calls, sendQuota := s'.sendQuota);
    SamePreparing(s, a);
    SameStaged(s, s');
  }

  lemma SamePreparing(s: State, a: Action)
    requires Enabled(s, a) && CallAction(a) && !a.Persist? && !a.Send? && !a.Fail?
    ensures forall j :: j in Preparing(Apply(s, a).calls) <==> j in Preparing(s.calls)
    ensures forall j <- Preparing(s.calls) :: Prepared(Apply(s, a).calls[j]) == Prepared(s.calls[j])
  {
    hide Persisted;
    hide SendOk;
    hide SendFailed;
  }

  lemma CallStores(s: State, a: Action)
    requires Enabled(s, a) && CallAction(a) && StoreExact(s) && StagedInv(s)
    ensures StoreExact(Apply(s, a)) && StagedInv(Apply(s, a)) && !Apply(s, a).halted
  {
    hide Persisted;
    hide SendOk;
    hide SendFailed;
    hide StoreExact;
    hide StagedInv;
    if a.Persist? {
      PersistStores(s, a.call);
      PersistStages(s, a.call);
    } else if a.Send? || a.Fail? {
      SendKeeps(s, a.call);
    } else {
      MovesWithin(s, a);
    }
  }

  // ---------- Steps of Poll ----------

  lemma CreditStages(s: State, wake: Option<nat>)
    requires StagedInv(s)
    ensures StagedInv(Credit(s, wake))
  {
    SameStaged(s, Credit(s, wake));
  }

  lemma FinishedLive(s: State, e: Exchange)
    requires e in s.open + s.refused
    ensures Live(Finished(s, e)) == Live(s) - multiset{e}
  {
  }

  // Ending an exchange and dropping its entry.
  lemma EndStores(s: State, e: Exchange)
    requires !s.halted && StoreExact(s) && e in s.open + s.refused
    ensures StoreExact(DropEntry(Finished(s, e), e.id)) && !DropEntry(Finished(s, e), e.id).halted
  {
    hide Distinct;
    hide Holds;
    hide DropFrom;
    hide Finished;
    var store := s.storage.value;
    assert e in Live(s);
    assert e in multiset(store);
    DropRemoves(store, e);
    FinishedLive(s, e);
    hide Live;
  }

  lemma PubrelStores(s: State, id: uint16)
    requires !s.halted && StoreExact(s) && Entry(id, StoredPubrec) in s.inbound
    ensures StoreExact(OnPubrel(s, id)) && !OnPubrel(s, id).halted
  {
    hide Distinct;
    hide Holds;
    hide DropFrom;
    var e, store := Entry(id, StoredPubrec), s.storage.value;
    assert e in multiset(store);
    DropRemoves(store, e);
    assert Live(s.(inbound := s.inbound - multiset{e})) == Live(s) - multiset{e};
  }

  lemma ReleasedLive(s: State, id: uint16, code: byte)
    requires Entry(id, StoredPublish(2)) in s.open
    ensures Live(Released(s, id, code))
         == Live(s) - multiset{Entry(id, StoredPublish(2))} + multiset{Entry(id, StoredPubrec)}
  {
  }

  lemma PubrecStores(s: State, id: uint16, code: byte)
    requires !s.halted && StoreExact(s) && Entry(id, StoredPublish(2)) in s.open
    ensures StoreExact(OnPubrec(s, id, code)) && !OnPubrec(s, id, code).halted
  {
    hide Distinct;
    hide Holds;
    hide DropFrom;
    hide StoreIn;
    hide Released;
    var e, f, store := Entry(id, StoredPublish(2)), Entry(id, StoredPubrec), s.storage.value;
    assert e in multiset(store);
    DropRemoves(store, e);
    StoreAdds(DropFrom(store, id), f);
    var s1 := if code > 0x80 && s.sendQuota < s.serverMax then s.(sendQuota := Inc16(s.sendQuota)) else s;
    ReleasedLive(StoreEntry(DropEntry(s1, id), f), id, code);
  }

  lemma InboundLive(s: State, e: Exchange)
    ensures Live(s.(inbound := s.inbound + multiset{e})) == Live(s) + multiset{e}
    ensures Live(s.(leftover := s.leftover + multiset{e})) == Live(s) + multiset{e}
    ensures Live(s) + multiset{e} != Live(s)
  {
    assert (Live(s) + multiset{e})[e] == Live(s)[e] + 1;
  }

  // An inbound publish keeps the storage exact if its identifier is fresh, and otherwise only if Poll turns it down.
  lemma PublishStores(s: State, bits: QoSBits, id: uint16)
    requires !s.halted && StoreExact(s)
    ensures OnPublish(s, bits, id).halted <==> !Accepted(s, bits, id)
    ensures StoreExact(OnPublish(s, bits, id)) <==> FreshInbound(s, RecvPublish(bits, id))
  {
    hide Distinct;
    hide Holds;
    hide StoreIn;
    var e, store := Entry(id, StoredPubrec), s.storage.value;
    InboundLive(s, e);
    var s' := OnPublish(s, bits, id);
    assert !s'.halted && bits > 0 ==> Live(s') == Live(s) + multiset{e};
    assert bits == 0 ==> Live(s') == Live(s);
    hide Live;
    if Holds(store, id) {
      StoreRefused(store, id);
    } else {
      StoreAdds(store, e);
    }
  }

  lemma StoreRefused(store: seq<Exchange>, id: uint16)
    requires Holds(store, id)
    ensures StoreIn(store, id, StoredPubrec) == store
  {
  }

  lemma PollStores(s: State, a: Action)
    requires Enabled(s, a) && !CallAction(a) && !a.RecvPublish? && Conforms(s, a) && StoreExact(s) && StagedInv(s)
    ensures StoreExact(Apply(s, a)) && StagedInv(Apply(s, a)) && !Apply(s, a).halted
  {
    hide StoreExact;
    hide OnPubrec;
    hide OnPubrel;
    hide DropEntry;
    hide Finished;
    hide WakeEnabled;
    hide StagedInv;
    if a.RecvPubrec? {
      PubrecStores(s, a.id, a.code);
      SameStaged(s, OnPubrec(s, a.id, a.code));
    } else if a.RecvPubrel? {
      PubrelStores(s, a.id);
      SameStaged(s, OnPubrel(s, a.id));
    } else {
      var s1, e := Credit(s, a.wake), Entry(a.id, if a.RecvPuback? then StoredPublish(1) else StoredPubrec);
      CreditStages(s, a.wake);
      CreditStores(s, a.wake);
      EndStores(s1, e);
      SameStaged(s1, DropEntry(Finished(s1, e), e.id));
    }
  }

  lemma CreditStores(s: State, wake: Option<nat>)
    requires StoreExact(s)
    ensures StoreExact(Credit(s, wake))
  {
    hide Distinct;
  }

  // ---------- Whole runs ----------

  lemma {:induction false} StoreAlong(s: State, run: seq<Action>)
    requires !s.halted && StoreExact(s) && StagedInv(s) && Possible(s, run)
    requires Throughout(s, run, Conforms) && Throughout(s, run, FreshInbound)
    ensures StoreExact(After(s, run)) && (!After(s, run).halted ==> StagedInv(After(s, run)))
    ensures After(s, run).halted ==> run != [] && Last(run).RecvPublish?
    ensures Always(s, run, StoreExact)
    decreases |run|
  {
    hide StoreExact;
    hide StagedInv;
    hide Apply;
    if run != [] {
      var before, a := After(s, Front(run)), Last(run);
      StoreAlong(s, Front(run));
      if CallAction(a) {
        CallStores(before, a);
      } else if a.RecvPublish? {
        PublishRun(before, a.bits, a.id);
      } else {
        PollStores(before, a);
      }
    }
  }

  lemma PublishRun(s: State, bits: QoSBits, id: uint16)
    requires Enabled(s, RecvPublish(bits, id)) && StoreExact(s)
    ensures var s' := Apply(s, RecvPublish(bits, id));
      && (StoreExact(s') <==> FreshInbound(s, RecvPublish(bits, id)))
      && (StagedInv(s) ==> StagedInv(s'))
  {
    PublishStores(s, bits, id);
    hide StoreExact;
    hide OnPublish;
    if StagedInv(s) {
      SameStaged(s, OnPublish(s, bits, id));
    }
  }

  lemma {:induction false} FreshAlong(s: State, run: seq<Action>)
    requires Possible(s, run) && Throughout(s, run, Conforms) && Always(s, run, StoreExact)
    ensures Throughout(s, run, FreshInbound)
    decreases |run|
  {
    hide StoreExact;
    hide Apply;
    if run != [] {
      var before, a := After(s, Front(run)), Last(run);
      FreshAlong(s, Front(run));
      if a.RecvPublish? {
        PublishRun(before, a.bits, a.id);
      }
    }
  }

  lemma StartsExact(requestedMax: uint16, serverMax: uint16, store: seq<Exchange>)
    requires Distinct(store)
    ensures var s := Connected(requestedMax, serverMax, Some(store)); StoreExact(s) && StagedInv(s)
  {
    assert Preparing(map[]) == {};
  }

  // With storage set, over every run with any number of publishers against a conforming server: the storage is exact
  // all along - one entry for each exchange that still has to end (a Publish until PUBACK or PUBREC, a Pubrec from
  // then until PUBCOMP), for each packet being prepared and for each inbound one awaiting PUBREL, and what is left
  // over - if and only if inbound QoS > 0 publishes come with identifiers that are not in the storage.
  lemma StorageExact(requestedMax: uint16, serverMax: uint16, store: seq<Exchange>, run: seq<Action>)
    requires Distinct(store)
    requires var s := Connected(requestedMax, serverMax, Some(store));
      Possible(s, run) && Throughout(s, run, Conforms)
    ensures var s := Connected(requestedMax, serverMax, Some(store));
      Always(s, run, StoreExact) <==> Throughout(s, run, FreshInbound)
  {
    var s := Connected(requestedMax, serverMax, Some(store));
    StartsExact(requestedMax, serverMax, store);
    if Throughout(s, run, FreshInbound) {
      StoreAlong(s, run);
    }
    if Always(s, run, StoreExact) {
      FreshAlong(s, run);
    }
  }

  // ---------- What an exact storage gives ----------

  // Entries with distinct identifiers are told apart by them.
  lemma DistinctIds(s: seq<Exchange>, e: Exchange, f: Exchange)
    requires Distinct(s) && e in s && f in s && e.id == f.id
    ensures e == f
  {
    IndexOfEntry(s, e);
    IndexOfEntry(s, f);
  }

  lemma {:induction false} DistinctOnce(s: seq<Exchange>, e: Exchange)
    requires Distinct(s)
    ensures multiset(s)[e] <= 1
  {
    if s != [] {
      var front := s[..|s| - 1];
      DistinctOnce(front, e);
      assert s == front + [s[|s| - 1]];
    }
  }

  // With fresh inbound identifiers no storage operation of Poll fails, Get finds the entry of everything alive, and no
  // two of them share an identifier.
  lemma StorageFaithful(requestedMax: uint16, serverMax: uint16, store: seq<Exchange>, run: seq<Action>)
    requires Distinct(store)
    requires var s := Connected(requestedMax, serverMax, Some(store));
      Possible(s, run) && Throughout(s, run, Conforms) && Throughout(s, run, FreshInbound)
    ensures var s := After(Connected(requestedMax, serverMax, Some(store)), run);
      && (s.halted ==> run != [] && Last(run).RecvPublish?)
      && (!s.halted ==>
            && s.storage.Some?
            && (forall e <- Live(s) :: Live(s)[e] == 1 && GetFrom(s.storage.value, e.id) == Found(e.packet))
            && (forall e <- Live(s), f <- Live(s) :: e.id == f.id ==> e == f))
  {
    var s0 := Connected(requestedMax, serverMax, Some(store));
    StartsExact(requestedMax, serverMax, store);
    StoreAlong(s0, run);
    hide Distinct;
    hide Possible;
    hide After;
    hide Live;
    hide Holds;
    var s := After(s0, run);
    if !s.halted {
      var now := s.storage.value;
      forall e <- Live(s) ensures Live(s)[e] == 1 && GetFrom(now, e.id) == Found(e.packet) {
        assert e in multiset(now);
        DistinctOnce(now, e);
        IndexOfEntry(now, e);
        EntryFound(now, e);
      }
      forall e <- Live(s), f <- Live(s) | e.id == f.id ensures e == f {
        assert e in multiset(now) && f in multiset(now);
        DistinctIds(now, e, f);
      }
    }
  }

  lemma EntryFound(s: seq<Exchange>, e: Exchange)
    requires Holds(s, e.id) && s[IndexOf(s, e.id)] == e
    ensures GetFrom(s, e.id) == Found(e.packet)
  {
  }

  lemma StagedSize(s: State)
    requires OneCall(s) && StagedInv(s)
    ensures |s.staged| + Pending(s) <= 1
  {
    if i :| i in s.calls {
      assert s.calls.Keys == {i};
      assert Preparing(s.calls) == if InPreparation(s.calls[i]) then {i} else {};
    } else {
      assert Preparing(s.calls) == {};
    }
  }

  // If moreover the publish calls do not overlap, the storage never grows beyond the server's receive maximum and one
  // packet, one for each failing PUBREC, and what inbound publishes and failed sends have put there.
  lemma StorageBounded(requestedMax: uint16, serverMax: uint16, store: seq<Exchange>, run: seq<Action>)
    requires Distinct(store)
    requires var s := Connected(requestedMax, serverMax, Some(store));
      Possible(s, run) && Throughout(s, run, Conforms) && Throughout(s, run, FreshInbound) && Throughout(s, run, Serial)
    ensures var s := After(Connected(requestedMax, serverMax, Some(store)), run);
      !s.halted ==>
        && s.storage.Some?
        && |s.storage.value| <= serverMax + 1 + Refusals(run) + |s.inbound| + |s.leftover|
  {
    var s0 := Connected(requestedMax, serverMax, Some(store));
    StartsExact(requestedMax, serverMax, store);
    StoreAlong(s0, run);
    QuotaAlong(s0, run);
    MaximaFixed(s0, run);
    hide StagedInv;
    hide Distinct;
    hide Possible;
    hide After;
    var s := After(s0, run);
    if !s.halted {
      StagedSize(s);
      assert |multiset(s.storage.value)| == |s.storage.value|;
    }
  }
}
