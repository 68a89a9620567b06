// Publishing from beginning to end (mqtt/client.go): what each exchange does to the client's state and what it leaves
// behind, from any state; when a blocked call of Publish goes on, and when it is left blocked although there is quota.
module Exchanges {
  import opened Bits
  import opened MemoryStorage
  import opened FlowControl
  import opened QuotaExact

  predicate Anything(s: State, a: Action) {
    true
  }

  // ---------- Waking a blocked call ----------

  predicate Acknowledges(a: Action) {
    a.RecvPuback? || a.RecvPubcomp?
  }

  // The poller may take any blocked call off the semaphore, and has to take one.
  lemma MayWake(s: State, i: nat, id: uint16)
    requires !s.halted && s.conn.None? && s.sendQuota < s.serverMax && WaitingCall(s, i)
    ensures Enabled(s, RecvPuback(id, Some(i))) && Enabled(s, RecvPubcomp(id, Some(i)))
    ensures !Enabled(s, RecvPuback(id, None)) && !Enabled(s, RecvPubcomp(id, None))
  {
  }

  lemma CreditExact(s: State, wake: Option<nat>)
    requires WakeEnabled(s, wake)
    ensures var s' := Credit(s, wake);
      && s'.sendQuota == (if s.sendQuota < s.serverMax then s.sendQuota + 1 else s.sendQuota)
      && (s.sendQuota < s.serverMax && (exists i <- s.calls :: WaitingCall(s, i)) ==>
            wake.Some? && WaitingCall(s, wake.value)
            && s'.calls == s.calls[wake.value := Woken(s.calls[wake.value].qos, s.calls[wake.value].id)])
      && (s.sendQuota >= s.serverMax || (forall i <- s.calls :: !WaitingCall(s, i)) ==> s'.calls == s.calls)
  {
  }

  // A PUBACK or PUBCOMP below the maximum gives back one credit and wakes one of the blocked calls, if there is one; at
  // the maximum it does neither. It is an error exactly if there is a storage without the identifier.
  lemma AckExact(s: State, a: Action)
    requires Enabled(s, a) && Acknowledges(a)
    ensures var s' := Apply(s, a);
      && s'.sendQuota == (if s.sendQuota < s.serverMax then s.sendQuota + 1 else s.sendQuota)
      && (s.sendQuota < s.serverMax && (exists i <- s.calls :: WaitingCall(s, i)) ==>
            a.wake.Some? && WaitingCall(s, a.wake.value)
            && s'.calls == s.calls[a.wake.value := Woken(s.calls[a.wake.value].qos, s.calls[a.wake.value].id)])
      && (s.sendQuota >= s.serverMax || (forall i <- s.calls :: !WaitingCall(s, i)) ==> s'.calls == s.calls)
      && s'.conn == s.conn && s'.receiveQuota == s.receiveQuota
      && (s'.halted <==> s.storage.Some? && !Holds(s.storage.value, a.id))
  {
    CreditExact(s, a.wake);
    hide WakeEnabled;
    hide WaitingCall;
    hide Credit;
    hide DropFrom;
    hide Holds;
    hide OnPubrec;
    hide OnPublish;
    hide OnPubrel;
    hide Persisted;
    hide SendOk;
    hide SendFailed;
  }

  function Awaited(a: Action): Exchange
    requires Acknowledges(a)
  {
    Entry(a.id, if a.RecvPuback? then StoredPublish(1) else StoredPubrec)
  }

  lemma WakesCall(s: State, i: nat, a: Action)
    requires Acknowledges(a) && a.wake == Some(i) && Enabled(s, a) && s.sendQuota < s.serverMax && WaitingCall(s, i)
    requires Awaited(a) in s.open && (s.storage.Some? ==> Holds(s.storage.value, a.id))
    ensures var s' := Apply(s, a);
      && s'.calls == s.calls[i := Woken(s.calls[i].qos, s.calls[i].id)]
      && s'.sendQuota == s.sendQuota + 1 && s'.conn == s.conn && !s'.halted && s'.open == s.open - multiset{Awaited(a)}
  {
    hide DropFrom;
    hide Holds;
  }

  // A call that has been woken takes connMutex and sends.
  lemma ResumesAndSends(s: State, i: nat)
    requires !s.halted && s.conn.None? && i in s.calls && s.calls[i].Woken? && s.calls[i].qos > 0
    ensures Enabled(s, Resume(i)) && Enabled(Apply(s, Resume(i)), Send(i))
    ensures var t := Apply(Apply(s, Resume(i)), Send(i));
      && t.open == s.open + multiset{Entry(s.calls[i].id, StoredPublish(s.calls[i].qos))}
      && t.calls == s.calls[i := Unsettled] && t.conn.None? && t.sendQuota == s.sendQuota && !t.halted
  {
    hide OnPubrec;
    hide OnPublish;
    hide OnPubrel;
    hide Persisted;
    hide SendFailed;
    hide Credit;
    hide DropEntry;
    hide Finished;
  }

  // The call that is woken goes on and sends its packet.
  lemma WokenSends(s: State, i: nat, a: Action)
    requires Acknowledges(a) && a.wake == Some(i) && !s.halted && s.conn.None? && s.sendQuota < s.serverMax
    requires WaitingCall(s, i) && s.calls[i].qos > 0
    requires Awaited(a) in s.open && (s.storage.Some? ==> Holds(s.storage.value, a.id))
    ensures exists t ::
      && Leads(s, [a] + [Resume(i)] + [Send(i)], t, Anything)
      && t.open == s.open - multiset{Awaited(a)} + multiset{Entry(s.calls[i].id, StoredPublish(s.calls[i].qos))}
      && t.calls == s.calls[i := Unsettled] && t.conn.None? && t.sendQuota == s.sendQuota + 1 && !t.halted
  {
    hide Leads;
    hide Holds;
    hide Apply;
    MayWake(s, i, a.id);
    hide Enabled;
    Start(s, Anything);
    Extend(s, [], s, Anything, a);
    assert [] + [a] == [a];
    WakesCall(s, i, a);
    var s1 := Apply(s, a);
    ResumesAndSends(s1, i);
    Extend(s, [a], s1, Anything, Resume(i));
    Extend(s, [a] + [Resume(i)], Apply(s1, Resume(i)), Anything, Send(i));
    assert s1.calls[i := Unsettled] == s.calls[i := Unsettled];
  }

  // ---------- Publishing without quota ----------

  // A QoS 0 packet goes out whatever the quota, and leaves everything as it was.
  lemma QoS0Passes(s: State, i: nat, id: uint16)
    requires !s.halted && s.conn.None? && i !in s.calls
    ensures Leads(s, [Enter(i, 0, id)] + [Persist(i)] + [Test(i)] + [Send(i)], s, Anything)
  {
    hide Leads;
    hide OnPubrec;
    hide OnPublish;
    hide OnPubrel;
    hide SendFailed;
    hide Credit;
    hide DropEntry;
    hide Finished;
    hide StoreEntry;
    hide WakeEnabled;
    var s1 := s.(conn := Some(i), calls := s.calls[i := Entered(0, id)]);
    var s2 := s.(conn := Some(i), calls := s.calls[i := Staged(0, id)]);
    var s3 := s.(conn := Some(i), calls := s.calls[i := Ready(0, id)]);
    Start(s, Anything);
    Extend(s, [], s, Anything, Enter(i, 0, id));
    assert [] + [Enter(i, 0, id)] == [Enter(i, 0, id)];
    assert s1.calls[i := Staged(0, id)] == s2.calls && s2.calls[i := Ready(0, id)] == s3.calls;
    Extend(s, [Enter(i, 0, id)], s1, Anything, Persist(i));
    Extend(s, [Enter(i, 0, id)] + [Persist(i)], s2, Anything, Test(i));
    assert s3.calls - {i} == s.calls;
    Extend(s, [Enter(i, 0, id)] + [Persist(i)] + [Test(i)], s3, Anything, Send(i));
  }

  // A packet with QoS > 0 that finds no quota is persisted and waits, with connMutex free for others.
  lemma Delayed(s: State, i: nat, qos: QoS, id: uint16)
    requires !s.halted && s.conn.None? && i !in s.calls && s.sendQuota == 0 && qos > 0
    requires s.storage.Some? ==> !Holds(s.storage.value, id)
    ensures var e := Entry(id, StoredPublish(qos));
      Leads(s, [Enter(i, qos, id)] + [Persist(i)] + [Test(i)] + [Wait(i)],
            s.(calls := s.calls[i := Waiting(qos, id)], staged := s.staged + multiset{e},
               storage := if s.storage.Some? then Some(s.storage.value + [e]) else None), Anything)
  {
    hide Leads;
    hide Holds;
    hide Persisted;
    hide OnPubrec;
    hide OnPublish;
    hide OnPubrel;
    hide SendOk;
    hide SendFailed;
    hide Credit;
    hide DropEntry;
    hide Finished;
    hide WakeEnabled;
    Start(s, Anything);
    PrepareLeads(s, [], s, Anything, i, qos, id);
    assert [] + [Enter(i, qos, id)] + [Persist(i)] == [Enter(i, qos, id)] + [Persist(i)];
    var s2 := Persistent(s, i, qos, id);
    var s3 := s2.(conn := None, calls := s.calls[i := Parked(qos, id)]);
    assert s2.calls[i := Parked(qos, id)] == s3.calls;
    assert s3.calls[i := Waiting(qos, id)] == s.calls[i := Waiting(qos, id)];
    Extend(s, [Enter(i, qos, id)] + [Persist(i)], s2, Anything, Test(i));
    Extend(s, [Enter(i, qos, id)] + [Persist(i)] + [Test(i)], s3, Anything, Wait(i));
  }

  // An identifier that is stored already ends the call, and nothing has changed.
  lemma DuplicateRefused(s: State, i: nat, qos: QoS, id: uint16)
    requires !s.halted && s.conn.None? && i !in s.calls && qos > 0
    requires s.storage.Some? && Holds(s.storage.value, id)
    ensures Leads(s, [Enter(i, qos, id)] + [Persist(i)], s, Anything)
  {
    hide Leads;
    hide Holds;
    hide OnPubrec;
    hide OnPublish;
    hide OnPubrel;
    hide SendOk;
    hide SendFailed;
    hide Credit;
    hide DropEntry;
    hide Finished;
    hide WakeEnabled;
    hide StoreEntry;
    var s1 := s.(conn := Some(i), calls := s.calls[i := Entered(qos, id)]);
    Start(s, Anything);
    Extend(s, [], s, Anything, Enter(i, qos, id));
    assert [] + [Enter(i, qos, id)] == [Enter(i, qos, id)];
    assert s1.calls - {i} == s.calls;
    Extend(s, [Enter(i, qos, id)], s1, Anything, Persist(i));
  }

  // A failing write ends the call without touching the quota; the packet stays in the storage.
  lemma FailedWrite(s: State, i: nat, qos: QoS, id: uint16)
    requires !s.halted && s.conn.None? && i !in s.calls && s.sendQuota > 0 && qos > 0
    requires s.storage.Some? ==> !Holds(s.storage.value, id)
    ensures var e := Entry(id, StoredPublish(qos));
      Leads(s, [Enter(i, qos, id)] + [Persist(i)] + [Test(i)] + [Fail(i)],
            s.(leftover := s.leftover + multiset{e},
               storage := if s.storage.Some? then Some(s.storage.value + [e]) else None), Anything)
  {
    hide Leads;
    hide Holds;
    hide Persisted;
    hide OnPubrec;
    hide OnPublish;
    hide OnPubrel;
    hide SendOk;
    hide Credit;
    hide DropEntry;
    hide Finished;
    hide WakeEnabled;
    Start(s, Anything);
    PrepareLeads(s, [], s, Anything, i, qos, id);
    assert [] + [Enter(i, qos, id)] + [Persist(i)] == [Enter(i, qos, id)] + [Persist(i)];
    var e, s2 := Entry(id, StoredPublish(qos)), Persistent(s, i, qos, id);
    var s3 := s2.(calls := s.calls[i := Ready(qos, id)]);
    assert s2.calls[i := Ready(qos, id)] == s3.calls;
    assert s3.calls - {i} == s.calls;
    assert s3.staged - multiset{e} == s.staged;
    Extend(s, [Enter(i, qos, id)] + [Persist(i)], s2, Anything, Test(i));
    Extend(s, [Enter(i, qos, id)] + [Persist(i)] + [Test(i)], s3, Anything, Fail(i));
  }

  // ---------- Whole exchanges ----------

  // Somebody can publish: nobody has connMutex or is blocked, there is quota, and the identifier is free.
  ghost predicate CanPublish(s: State, i: nat, id: uint16) {
    && !s.halted && s.conn.None? && i !in s.calls && 0 < s.sendQuota <= s.serverMax
    && (forall j <- s.calls :: !WaitingCall(s, j))
    && (s.storage.Some? ==> Distinct(s.storage.value) && !Holds(s.storage.value, id))
    && Entry(id, StoredPubrec) !in s.open
  }

  // s with an exchange on its way.
  function With(s: State, quota: uint16, open: multiset<Exchange>, refused: multiset<Exchange>, e: Exchange): State {
    s.(sendQuota := quota, open := open, refused := refused,
       storage := if s.storage.Some? then Some(s.storage.value + [e]) else None)
  }

  lemma Publishes(s: State, i: nat, qos: QoS, id: uint16)
    requires CanPublish(s, i, id) && qos > 0
    ensures var e := Entry(id, StoredPublish(qos));
      Leads(s, SendRun(i, qos, id) + [Settle(i)], With(s, s.sendQuota - 1, s.open + multiset{e}, s.refused, e),
            Anything)
  {
    hide Leads;
    hide Holds;
    hide Distinct;
    Start(s, Anything);
    SendLeads(s, [], s, Anything, i, qos, id);
    assert [] + SendRun(i, qos, id) == SendRun(i, qos, id);
    var t := Sent(s, i, qos, id);
    assert t.calls - {i} == s.calls;
    Extend(s, SendRun(i, qos, id), t, Anything, Settle(i));
  }

  lemma EndsLast(list: seq<Exchange>, e: Exchange)
    requires Distinct(list) && !Holds(list, e.id)
    ensures Holds(list + [e], e.id) && DropFrom(list + [e], e.id) == list
  {
    DropLast(list, e);
  }

  // The last acknowledgement of an exchange, when nobody is blocked.
  lemma AckEffect(s: State, a: Action, storage: Option<seq<Exchange>>)
    requires Acknowledges(a) && a.wake.None? && !s.halted && s.conn.None?
    requires forall j <- s.calls :: !WaitingCall(s, j)
    requires match s.storage
             case None => storage.None?
             case Some(list) => Holds(list, a.id) && storage == Some(DropFrom(list, a.id))
    ensures var e := Awaited(a);
      Enabled(s, a) && Apply(s, a)
      == s.(sendQuota := if s.sendQuota < s.serverMax then s.sendQuota + 1 else s.sendQuota, storage := storage,
            open := if e in s.open then s.open - multiset{e} else s.open,
            refused := if e in s.open then s.refused else s.refused - multiset{e})
  {
    hide Holds;
    hide DropFrom;
    hide OnPubrec;
    hide OnPublish;
    hide OnPubrel;
    hide SendOk;
    hide SendFailed;
    hide Persisted;
  }

  // The final acknowledgement undoes what publishing has done, and gives a credit below the maximum.
  lemma Completes(s: State, a: Action, quota: uint16, open: multiset<Exchange>, refused: multiset<Exchange>)
    requires Acknowledges(a) && a.wake.None? && !s.halted && s.conn.None?
    requires forall j <- s.calls :: !WaitingCall(s, j)
    requires s.storage.Some? ==> Distinct(s.storage.value) && !Holds(s.storage.value, a.id)
    requires var e := Awaited(a);
      if e in open then open == s.open + multiset{e} && refused == s.refused
      else open == s.open && refused == s.refused + multiset{e}
    ensures var t := With(s, quota, open, refused, Awaited(a));
      Enabled(t, a) && Apply(t, a) == s.(sendQuota := if quota < s.serverMax then quota + 1 else quota)
  {
    hide Holds;
    hide DropFrom;
    hide Distinct;
    hide Apply;
    hide Enabled;
    var e := Awaited(a);
    if s.storage.Some? {
      EndsLast(s.storage.value, e);
    }
    if e in open {
      assert open - multiset{e} == s.open;
    } else {
      assert refused - multiset{e} == s.refused;
    }
    AckEffect(With(s, quota, open, refused, e), a, s.storage);
  }

  // QoS 1 (section 4.3.2 of MQTT 5.0): publishing and its PUBACK leave the client as it was.
  lemma QoS1Exchange(s: State, i: nat, id: uint16)
    requires CanPublish(s, i, id)
    ensures Leads(s, SendRun(i, 1, id) + [Settle(i)] + [RecvPuback(id, None)], s, Anything)
  {
    hide Leads;
    hide Apply;
    hide Enabled;
    hide With;
    var a, e := RecvPuback(id, None), Entry(id, StoredPublish(1));
    Publishes(s, i, 1, id);
    Completes(s, a, s.sendQuota - 1, s.open + multiset{e}, s.refused);
    Extend(s, SendRun(i, 1, id) + [Settle(i)],
           With(s, s.sendQuota - 1, s.open + multiset{e}, s.refused, e), Anything, a);
  }

  // What a PUBREC with any reason code makes of a publish that is on its way: a code above 0x80 gives the credit back
  // at once; one below 0x80 keeps the exchange open, and from there on the storage has a PUBREC for it.
  lemma PubrecExact(s: State, id: uint16, code: byte, quota: uint16)
    requires !s.halted && s.conn.None? && quota < s.serverMax
    requires s.storage.Some? ==> Distinct(s.storage.value) && !Holds(s.storage.value, id)
    ensures var e, f := Entry(id, StoredPublish(2)), Entry(id, StoredPubrec);
      var t := With(s, quota, s.open + multiset{e}, s.refused, e);
      Enabled(t, RecvPubrec(id, code)) &&
      Apply(t, RecvPubrec(id, code))
      == With(s, if code > 0x80 then quota + 1 else quota, if code < 0x80 then s.open + multiset{f} else s.open,
              if code < 0x80 then s.refused else s.refused + multiset{f}, f)
  {
    hide OnPubrec;
    hide Holds;
    hide DropFrom;
    hide Distinct;
    hide OnPublish;
    hide OnPubrel;
    hide Credit;
    hide Finished;
    hide DropEntry;
    hide SendOk;
    hide SendFailed;
    hide Persisted;
    hide WakeEnabled;
    var e, f := Entry(id, StoredPublish(2)), Entry(id, StoredPubrec);
    if s.storage.Some? {
      EndsLast(s.storage.value, e);
    }
    PubrecEffect(With(s, quota, s.open + multiset{e}, s.refused, e), id, code,
                 if s.storage.Some? then Some(s.storage.value + [f]) else None);
    assert s.open + multiset{e} - multiset{e} == s.open;
  }

  // QoS 2 (section 4.3.3 of MQTT 5.0): publishing, PUBREC and PUBCOMP leave the client as it was if the reason code
  // is at most 0x80. With one above, the exchange is credited twice, and the quota is one more, up to the maximum.
  lemma QoS2Exchange(s: State, i: nat, id: uint16, code: byte)
    requires CanPublish(s, i, id)
    ensures Leads(s, SendRun(i, 2, id) + [Settle(i)] + [RecvPubrec(id, code)] + [RecvPubcomp(id, None)],
                  s.(sendQuota := if code > 0x80 && s.sendQuota < s.serverMax then s.sendQuota + 1 else s.sendQuota),
                  Anything)
  {
    hide Leads;
    hide Apply;
    hide Enabled;
    hide Holds;
    hide Distinct;
    var a, e, f := RecvPubcomp(id, None), Entry(id, StoredPublish(2)), Entry(id, StoredPubrec);
    var quota := if code > 0x80 then s.sendQuota else s.sendQuota - 1;
    var open := if code < 0x80 then s.open + multiset{f} else s.open;
    var refused := if code < 0x80 then s.refused else s.refused + multiset{f};
    var run := SendRun(i, 2, id) + [Settle(i)];
    Publishes(s, i, 2, id);
    PubrecExact(s, id, code, s.sendQuota - 1);
    Extend(s, run, With(s, s.sendQuota - 1, s.open + multiset{e}, s.refused, e), Anything, RecvPubrec(id, code));
    Completes(s, a, quota, open, refused);
    Extend(s, run + [RecvPubrec(id, code)], With(s, quota, open, refused, f), Anything, a);
  }

  // A PUBREC whose identifier is not stored is an error; a code above 0x80 has given its credit by then.
  lemma PubrecUnknown(s: State, id: uint16, code: byte)
    requires !s.halted && s.conn.None? && s.storage.Some? && !Holds(s.storage.value, id)
    ensures Enabled(s, RecvPubrec(id, code))
    ensures Apply(s, RecvPubrec(id, code))
      == s.(halted := true,
            sendQuota := if code > 0x80 && s.sendQuota < s.serverMax then s.sendQuota + 1 else s.sendQuota)
  {
    hide Holds;
    hide DropFrom;
    hide StoreIn;
  }

  // ---------- Receiving ----------

  // Somebody can be answered: the poller has connMutex, and the identifier is one and free.
  ghost predicate CanReceive(s: State, id: uint16) {
    !s.halted && s.conn.None? && id != 0 && 0 < s.receiveQuota <= s.clientMax
    && (s.storage.Some? ==> Distinct(s.storage.value) && !Holds(s.storage.value, id))
  }

  function Kept(s: State, e: Exchange): Option<seq<Exchange>> {
    if s.storage.Some? then Some(s.storage.value + [e]) else None
  }

  // An inbound PUBLISH takes a credit. QoS 1 gives it back with the PUBACK, and leaves an entry in the storage that
  // nobody drops; QoS 2 gives it back with the PUBREL; QoS bits 0 and 3 do not.
  lemma PublishReceived(s: State, bits: QoSBits, id: uint16)
    requires CanReceive(s, id)
    ensures var a, e := RecvPublish(bits, id), Entry(id, StoredPubrec);
      Enabled(s, a) && Apply(s, a) ==
      match bits
      case 0 => s.(receiveQuota := s.receiveQuota - 1, unacknowledged := s.unacknowledged + 1)
      case 1 => s.(storage := Kept(s, e), leftover := s.leftover + multiset{e})
      case 2 => s.(receiveQuota := s.receiveQuota - 1, storage := Kept(s, e), inbound := s.inbound + multiset{e})
      case _ => s.(receiveQuota := s.receiveQuota - 1, storage := Kept(s, e), leftover := s.leftover + multiset{e},
                   unacknowledged := s.unacknowledged + 1)
  {
    hide Holds;
    hide Distinct;
    if s.storage.Some? {
      StoreInEnd(s.storage.value, Entry(id, StoredPubrec));
    }
    hide StoreIn;
  }

  // A PUBREL gives one credit back below the maximum; without the identifier in the storage it is an error instead.
  lemma PubrelExact(s: State, id: uint16)
    requires !s.halted && s.conn.None?
    ensures var a, s' := RecvPubrel(id), Apply(s, RecvPubrel(id));
      && Enabled(s, a)
      && (if s.storage.Some? && !Holds(s.storage.value, id) then s' == s.(halted := true)
          else
            && !s'.halted && s'.inbound == s.inbound - multiset{Entry(id, StoredPubrec)}
            && s'.receiveQuota == (if s.receiveQuota < s.clientMax then s.receiveQuota + 1 else s.receiveQuota)
            && s'.sendQuota == s.sendQuota && s'.calls == s.calls && s'.open == s.open
            && (s.storage.Some? ==> s'.storage == Some(DropFrom(s.storage.value, id))))
  {
    hide Holds;
    hide DropFrom;
  }

  // QoS 2 towards the client: PUBLISH and PUBREL leave it as it was.
  lemma QoS2Received(s: State, id: uint16)
    requires CanReceive(s, id)
    ensures Leads(s, [RecvPublish(2, id)] + [RecvPubrel(id)], s, Anything)
  {
    hide Leads;
    hide Enabled;
    hide Apply;
    hide Holds;
    hide Distinct;
    hide DropFrom;
    var e := Entry(id, StoredPubrec);
    var t := s.(receiveQuota := s.receiveQuota - 1, storage := Kept(s, e), inbound := s.inbound + multiset{e});
    Start(s, Anything);
    PublishReceived(s, 2, id);
    Extend(s, [], s, Anything, RecvPublish(2, id));
    assert [] + [RecvPublish(2, id)] == [RecvPublish(2, id)];
    if s.storage.Some? {
      EndsLast(s.storage.value, e);
    }
    assert s.inbound + multiset{e} - multiset{e} == s.inbound;
    PubrelEffect(t, id, s);
    Extend(s, [RecvPublish(2, id)], t, Anything, RecvPubrel(id));
  }

  lemma PubrelEffect(t: State, id: uint16, s: State)
    requires !t.halted && t.conn.None? && t.receiveQuota < t.clientMax
    requires t.storage.Some? ==> Holds(t.storage.value, id)
    requires s == t.(receiveQuota := t.receiveQuota + 1, inbound := t.inbound - multiset{Entry(id, StoredPubrec)},
                     storage := if t.storage.Some? then Some(DropFrom(t.storage.value, id)) else None)
    ensures Enabled(t, RecvPubrel(id)) && Apply(t, RecvPubrel(id)) == s
  {
    hide Holds;
    hide DropFrom;
  }

  // What is an error of Poll, with nothing else changed: a publish with QoS > 0 without a credit for it. Without a
  // packet identifier the credit is gone by then.
  lemma PublishRefused(s: State, bits: QoSBits, id: uint16)
    requires !s.halted && s.conn.None? && bits > 0
    ensures Enabled(s, RecvPublish(bits, id))
    ensures s.receiveQuota == 0 ==> Apply(s, RecvPublish(bits, id)) == s.(halted := true)
    ensures s.receiveQuota > 0 && id == 0 && bits < 3 ==>
      Apply(s, RecvPublish(bits, id)) == s.(halted := true, receiveQuota := s.receiveQuota - 1)
    ensures s.receiveQuota > 0 && (id != 0 || bits == 3) ==> !Apply(s, RecvPublish(bits, id)).halted
  {
    hide StoreIn;
    hide Holds;
  }

  // ---------- Held back although there is quota ----------

  predicate HeldBack(c: Call) {
    c.Parked? || c.Waiting?
  }

  // Nobody is held back while there is quota.
  ghost predicate NobodyStalled(s: State) {
    forall i <- s.calls :: HeldBack(s.calls[i]) ==> s.sendQuota == 0
  }

  // A credit that does not wake the call it is for: the select finds nobody blocked on the semaphore yet, or it comes
  // with a failing PUBREC, which does not look for anybody.
  ghost predicate WakesAll(s: State, a: Action) {
    && (Acknowledges(a) ==> forall i <- s.calls :: !s.calls[i].Parked?)
    && (a.RecvPubrec? && a.code > 0x80 ==> forall i <- s.calls :: !HeldBack(s.calls[i]))
  }

  ghost predicate SerialServed(s: State, a: Action) {
    Serial(s, a) && Conforms(s, a)
  }

  lemma CallStalls(s: State, a: Action)
    requires Enabled(s, a) && OneCall(s) && NobodyStalled(s) && Serial(s, a) && CallAction(a)
    ensures NobodyStalled(Apply(s, a))
  {
  }

  lemma PubrecStalls(s: State, a: Action)
    requires Enabled(s, a) && OneCall(s) && NobodyStalled(s) && a.RecvPubrec? && s.serverMax >= 1
    ensures NobodyStalled(Apply(s, a)) <==> WakesAll(s, a)
  {
    hide Holds;
    hide DropFrom;
    hide StoreIn;
  }

  lemma AckStalls(s: State, a: Action)
    requires Enabled(s, a) && OneCall(s) && NobodyStalled(s) && Acknowledges(a) && s.serverMax >= 1
    ensures NobodyStalled(Apply(s, a)) <==> WakesAll(s, a)
  {
    AckExact(s, a);
    hide Apply;
    hide Enabled;
    hide Holds;
  }

  lemma InboundStalls(s: State, a: Action)
    requires Enabled(s, a) && NobodyStalled(s) && (a.RecvPublish? || a.RecvPubrel?)
    ensures NobodyStalled(Apply(s, a))
  {
    hide Holds;
    hide DropFrom;
    hide StoreIn;
  }

  lemma StallsStep(s: State, a: Action)
    requires Enabled(s, a) && OneCall(s) && NobodyStalled(s) && Serial(s, a) && s.serverMax >= 1
    ensures NobodyStalled(Apply(s, a)) <==> WakesAll(s, a)
  {
    hide Apply;
    hide Enabled;
    hide OneCall;
    hide NobodyStalled;
    if CallAction(a) {
      CallStalls(s, a);
    } else if a.RecvPubrec? {
      PubrecStalls(s, a);
    } else if Acknowledges(a) {
      AckStalls(s, a);
    } else {
      InboundStalls(s, a);
    }
  }

  lemma {:induction false} StallsAlong(s: State, run: seq<Action>)
    requires OneCall(s) && QuotaInv(s, 0) && NobodyStalled(s) && s.serverMax >= 1
    requires Possible(s, run) && Throughout(s, run, Serial) && Throughout(s, run, Conforms)
    ensures Throughout(s, run, WakesAll) ==> NobodyStalled(After(s, run))
    ensures Throughout(s, run, WakesAll) <==> Always(s, run, NobodyStalled)
    decreases |run|
  {
    hide Apply;
    hide Enabled;
    hide OneCall;
    hide QuotaInv;
    hide NobodyStalled;
    hide WakesAll;
    if run != [] {
      StallsAlong(s, Front(run));
      QuotaAlong(s, Front(run));
      MaximaFixed(s, Front(run));
      if NobodyStalled(After(s, Front(run))) {
        StallsStep(After(s, Front(run)), Last(run));
      }
    }
  }

  // Over every run of non-overlapping calls of Publish against a conforming server: nobody is ever held back while
  // there is quota if and only if no PUBACK or PUBCOMP comes in between a call's giving up connMutex and its blocking
  // on the semaphore, and no failing PUBREC while a call is held back.
  lemma HeldBackExactly(requestedMax: uint16, serverMax: uint16, storage: Option<seq<Exchange>>, run: seq<Action>)
    requires var s := Connected(requestedMax, serverMax, storage);
      serverMax >= 1 && Possible(s, run) && Throughout(s, run, Serial) && Throughout(s, run, Conforms)
    ensures var s := Connected(requestedMax, serverMax, storage);
      Always(s, run, NobodyStalled) <==> Throughout(s, run, WakesAll)
  {
    StallsAlong(Connected(requestedMax, serverMax, storage), run);
  }

  // ---------- A wake-up that is missed for good ----------

  // With a receive maximum of 1: a publish is on its way, the next one finds no quota, and the PUBACK comes in before
  // that call has blocked.
  function MissedRun(): seq<Action> {
    SendRun(0, 1, Id(0)) + [Settle(0)] + [Enter(0, 1, Id(1))] + [Persist(0)] + [Test(0)] + [RecvPuback(Id(0), None)]
    + [Wait(0)]
  }

  // The second call blocked at full quota, with nothing outstanding.
  function Stuck(): State {
    Connected(0, 1, None).(calls := map[0 := Waiting(1, Id(1))], staged := multiset{Entry(Id(1), StoredPublish(1))})
  }

  lemma SecondParks(run: seq<Action>, u: State)
    requires u == Connected(0, 1, None).(sendQuota := 0, open := multiset{Entry(Id(0), StoredPublish(1))})
    requires Leads(Connected(0, 1, None), run, u, SerialServed)
    ensures Leads(Connected(0, 1, None), run + [Enter(0, 1, Id(1))] + [Persist(0)] + [Test(0)],
                  u.(calls := Stuck().calls[0 := Parked(1, Id(1))], staged := Stuck().staged), SerialServed)
  {
    hide Leads;
    hide Id;
    hide OnPubrec;
    hide OnPublish;
    hide OnPubrel;
    hide SendOk;
    hide SendFailed;
    hide Credit;
    hide Finished;
    hide DropEntry;
    var s, f := Connected(0, 1, None), Entry(Id(1), StoredPublish(1));
    PrepareLeads(s, run, u, SerialServed, 0, 1, Id(1));
    var v := Persistent(u, 0, 1, Id(1));
    assert multiset{} + multiset{f} == multiset{f};
    assert v.calls[0 := Parked(1, Id(1))] == Stuck().calls[0 := Parked(1, Id(1))];
    Extend(s, run + [Enter(0, 1, Id(1))] + [Persist(0)], v, SerialServed, Test(0));
  }

  lemma PubackUnheard(run: seq<Action>, w: State)
    requires w == Stuck().(sendQuota := 0, open := multiset{Entry(Id(0), StoredPublish(1))},
                           calls := Stuck().calls[0 := Parked(1, Id(1))])
    requires Leads(Connected(0, 1, None), run, w, SerialServed)
    ensures Leads(Connected(0, 1, None), run + [RecvPuback(Id(0), None)] + [Wait(0)], Stuck(), SerialServed)
  {
    hide Leads;
    hide Id;
    hide OnPubrec;
    hide OnPublish;
    hide OnPubrel;
    hide SendOk;
    hide SendFailed;
    hide Persisted;
    var s, e := Connected(0, 1, None), Entry(Id(0), StoredPublish(1));
    assert multiset{e} - multiset{e} == multiset{} && e in multiset{e};
    Extend(s, run, w, SerialServed, RecvPuback(Id(0), None));
    var x := w.(sendQuota := 1, open := multiset{});
    assert x.calls[0 := Waiting(1, Id(1))] == Stuck().calls;
    Extend(s, run + [RecvPuback(Id(0), None)], x, SerialServed, Wait(0));
  }

  lemma MissedWakeUp()
    ensures Leads(Connected(0, 1, None), MissedRun(), Stuck(), SerialServed)
  {
    hide Leads;
    hide Id;
    hide SendRun;
    var s, e := Connected(0, 1, None), Entry(Id(0), StoredPublish(1));
    Start(s, SerialServed);
    SendActions(1, Id(0));
    SendLeads(s, [], s, SerialServed, 0, 1, Id(0));
    assert [] + SendRun(0, 1, Id(0)) == SendRun(0, 1, Id(0));
    var run, t := SendRun(0, 1, Id(0)), Sent(s, 0, 1, Id(0));
    assert multiset{} + multiset{e} == multiset{e} && t.calls - {0} == map[];
    Settles(s, run, t);
    SecondParks(run + [Settle(0)], s.(sendQuota := 0, open := multiset{e}));
    var prepared := run + [Settle(0)] + [Enter(0, 1, Id(1))] + [Persist(0)] + [Test(0)];
    PubackUnheard(prepared, Stuck().(sendQuota := 0, open := multiset{e}, calls := map[0 := Parked(1, Id(1))]));
  }

  lemma Settles(s: State, run: seq<Action>, t: State)
    requires Leads(s, run, t, SerialServed) && !t.halted && 0 in t.calls && t.calls[0].Unsettled?
    ensures Leads(s, run + [Settle(0)], t.(sendQuota := Dec16(t.sendQuota), calls := t.calls - {0}), SerialServed)
  {
    hide Leads;
    Extend(s, run, t, SerialServed, Settle(0));
  }

  lemma SendActions(qos: QoS, id: uint16)
    ensures forall u: State, a <- SendRun(0, qos, id) :: (a.Enter? ==> u.calls == map[]) ==> SerialServed(u, a)
  {
  }

  ghost predicate IsStuck(s: State) {
    s.calls == Stuck().calls && s.sendQuota == s.serverMax == 1 && s.conn.None?
  }

  lemma StuckCall(s: State, a: Action)
    requires IsStuck(s) && CallAction(a) && Serial(s, a)
    ensures !Enabled(s, a)
  {
    hide WakeEnabled;
    assert 0 in s.calls;
  }

  lemma StuckPoll(s: State, a: Action)
    requires IsStuck(s) && !CallAction(a) && Enabled(s, a)
    ensures IsStuck(Apply(s, a))
  {
    hide Holds;
    hide DropFrom;
    hide StoreIn;
    hide Persisted;
    hide SendOk;
    hide SendFailed;
    hide Released;
    hide Delivered;
    hide Id;
  }

  // From there on, whatever the server sends, that call never goes on unless another one is made.
  lemma {:induction false} StuckForever(run: seq<Action>)
    requires Possible(Stuck(), run) && Throughout(Stuck(), run, Serial)
    ensures IsStuck(After(Stuck(), run))
    decreases |run|
  {
    hide Id;
    if run != [] {
      var s, a := After(Stuck(), Front(run)), Last(run);
      StuckForever(Front(run));
      hide IsStuck;
      hide Apply;
      hide Enabled;
      if CallAction(a) {
        StuckCall(s, a);
      } else {
        StuckPoll(s, a);
      }
    }
  }
}
