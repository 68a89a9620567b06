// Whole runs of the flow-control machine: exactly when the receive quota and the send quota keep their balance.
module FlowRuns {
  import opened Bits
  import opened MemoryStorage
  import opened FlowControl

  // ---------- The receive quota ----------

  // What the quota lacks of its maximum are the QoS 2 publishes not yet released, and the publishes no acknowledgement
  // follows: each of those takes one credit and gives none back.
  ghost predicate ReceiveInv(s: State) {
    s.halted || s.receiveQuota + |s.inbound| + s.unacknowledged == s.clientMax
  }

  // What goes out, and its acknowledgements, leave the receive side alone.
  lemma OutboundStep(s: State, a: Action)
    requires Enabled(s, a) && !a.RecvPublish? && !a.RecvPubrel?
    ensures var s' := Apply(s, a);
      s'.receiveQuota == s.receiveQuota && s'.inbound == s.inbound && s'.unacknowledged == s.unacknowledged
      && s'.clientMax == s.clientMax
  {
    hide Holds;
    hide StoreIn;
    hide DropFrom;
    hide WakeEnabled;
  }

  lemma PublishReceived(s: State, bits: QoSBits, id: uint16)
    requires !s.halted && ReceiveInv(s)
    ensures ReceiveInv(OnPublish(s, bits, id)) <==> QoS0WithQuota(s, RecvPublish(bits, id))
  {
    hide StoreEntry;
  }

  lemma PubrelReceived(s: State, id: uint16)
    requires !s.halted && ReceiveInv(s) && Entry(id, StoredPubrec) in s.inbound
    ensures ReceiveInv(OnPubrel(s, id))
  {
    hide DropEntry;
    assert |s.inbound - multiset{Entry(id, StoredPubrec)}| == |s.inbound| - 1;
  }

  // A step keeps the balance, unless it is a QoS 0 publish that finds no quota.
  lemma ReceiveStep(s: State, a: Action)
    requires Enabled(s, a) && ReceiveInv(s) && Conforms(s, a)
    ensures ReceiveInv(Apply(s, a)) <==> QoS0WithQuota(s, a)
  {
    hide OnPublish;
    hide OnPubrel;
    hide WakeEnabled;
    if a.RecvPublish? {
      PublishReceived(s, a.bits, a.id);
    } else if a.RecvPubrel? {
      PubrelReceived(s, a.id);
    } else {
      OutboundStep(s, a);
    }
  }

  lemma {:induction false} ReceiveAlong(s: State, run: seq<Action>)
    requires ReceiveInv(s)
    requires Possible(s, run) && Throughout(s, run, Conforms) && Throughout(s, run, QoS0WithQuota)
    ensures Always(s, run, ReceiveInv)
    decreases |run|
  {
    hide Apply;
    hide Enabled;
    if run != [] {
      ReceiveAlong(s, Front(run));
      ReceiveStep(After(s, Front(run)), Last(run));
    }
  }

  lemma {:induction false} ReceiveOnlyThen(s: State, run: seq<Action>)
    requires Possible(s, run) && Throughout(s, run, Conforms) && Always(s, run, ReceiveInv)
    ensures Throughout(s, run, QoS0WithQuota)
    decreases |run|
  {
    hide Apply;
    hide Enabled;
    if run != [] {
      ReceiveOnlyThen(s, Front(run));
      ReceiveStep(After(s, Front(run)), Last(run));
    }
  }

  // Over every run with any number of publishers and any storage against a conforming server, until Poll returns an
  // error: receive quota, QoS 2 publishes awaiting PUBREL and publishes no acknowledgement follows make up the
  // client's receive maximum all along - so that the quota has not wrapped - if and only if QoS 0 publishes come in
  // only while there is quota.
  lemma ReceiveConservation(requestedMax: uint16, serverMax: uint16, storage: Option<seq<Exchange>>, run: seq<Action>)
    requires var s := Connected(requestedMax, serverMax, storage);
      Possible(s, run) && Throughout(s, run, Conforms)
    ensures var s := Connected(requestedMax, serverMax, storage);
      Always(s, run, ReceiveInv) <==> Throughout(s, run, QoS0WithQuota)
  {
    var s := Connected(requestedMax, serverMax, storage);
    if Throughout(s, run, QoS0WithQuota) {
      ReceiveAlong(s, run);
    }
    if Always(s, run, ReceiveInv) {
      ReceiveOnlyThen(s, run);
    }
  }

  // Then the quota and the unreleased QoS 2 publishes alone make up the maximum exactly when every publish received is
  // one of QoS 1 or 2.
  lemma ReceiveBalance(requestedMax: uint16, serverMax: uint16, storage: Option<seq<Exchange>>, run: seq<Action>)
    requires var s := Connected(requestedMax, serverMax, storage);
      Possible(s, run) && Throughout(s, run, Conforms) && Throughout(s, run, QoS0WithQuota)
    ensures var s := After(Connected(requestedMax, serverMax, storage), run);
      !s.halted ==>
        && (s.receiveQuota + |s.inbound| == s.clientMax <==> s.unacknowledged == 0)
        && |s.inbound| <= s.clientMax
        && s.clientMax == if requestedMax == 0 then serverMax else requestedMax
  {
    var s := Connected(requestedMax, serverMax, storage);
    ReceiveAlong(s, run);
    MaximaFixed(s, run);
  }

  // The next publish with QoS > 0 is refused with the quota as it was exactly when the credits are used up. Otherwise
  // it takes one credit, which QoS 1 gives back at once; without the identifier that QoS 1 and 2 need it is an error
  // then.
  lemma RefusedAtZero(requestedMax: uint16, serverMax: uint16, storage: Option<seq<Exchange>>, run: seq<Action>,
                      bits: QoSBits, id: uint16)
    requires var s := Connected(requestedMax, serverMax, storage);
      Possible(s, run) && Throughout(s, run, Conforms) && Throughout(s, run, QoS0WithQuota)
      && Enabled(After(s, run), RecvPublish(bits, id))
    requires bits > 0
    ensures var s := After(Connected(requestedMax, serverMax, storage), run);
      var s' := Apply(s, RecvPublish(bits, id));
      var full := |s.inbound| + s.unacknowledged == s.clientMax;
      && (s'.halted <==> full || (id == 0 && bits != 3))
      && s'.receiveQuota == if full || (bits == 1 && id != 0) then s.receiveQuota else s.receiveQuota - 1
  {
    var s := Connected(requestedMax, serverMax, storage);
    ReceiveAlong(s, run);
  }

  // ---------- The send quota ----------

  // Every credit is either in the quota or out with an exchange that still has to end, but for the decrement pending.
  ghost predicate SendBalance(s: State) {
    s.sendQuota + Load(s) == s.serverMax + Pending(s)
  }

  // An acknowledgement finds the quota below its maximum, so that its credit is not lost.
  predicate CreditTaken(s: State, a: Action) {
    a.RecvPuback? || a.RecvPubcomp? ==> s.sendQuota < s.serverMax
  }

  ghost predicate SerialUnrefused(s: State, a: Action) {
    Serial(s, a) && Conforms(s, a) && Refusal(a) == 0
  }

  lemma CallBalances(s: State, a: Action)
    requires Enabled(s, a) && OneCall(s) && QuotaInv(s, 0) && SendBalance(s) && Serial(s, a) && CallAction(a)
    ensures SendBalance(Apply(s, a))
  {
    hide StoreIn;
    hide Holds;
    hide WakeEnabled;
    hide Credit;
    hide DropEntry;
    hide Finished;
    hide OnPubrec;
    hide OnPublish;
    hide OnPubrel;
    OneCallStep(s, a);
  }

  lemma AckBalances(s: State, a: Action)
    requires Enabled(s, a) && OneCall(s) && QuotaInv(s, 0) && SendBalance(s) && Conforms(s, a)
    requires a.RecvPuback? || a.RecvPubcomp?
    ensures SendBalance(Apply(s, a)) <==> CreditTaken(s, a)
  {
    hide DropEntry;
    hide Credit;
    hide Finished;
    var e := Entry(a.id, if a.RecvPuback? then StoredPublish(1) else StoredPubrec);
    CreditCalls(s, a.wake, 0);
    CreditAmount(s, a.wake);
    FinishedLoad(Credit(s, a.wake), e);
  }

  lemma CreditAmount(s: State, wake: Option<nat>)
    requires s.sendQuota <= s.serverMax
    ensures Credit(s, wake).sendQuota == if s.sendQuota < s.serverMax then s.sendQuota + 1 else s.sendQuota
  {
  }

  lemma OtherBalances(s: State, a: Action)
    requires Enabled(s, a) && SendBalance(s) && Conforms(s, a) && Refusal(a) == 0
    requires a.RecvPubrec? || a.RecvPublish? || a.RecvPubrel?
    ensures SendBalance(Apply(s, a))
  {
    hide DropEntry;
    hide StoreEntry;
    hide Released;
    hide Delivered;
    if a.RecvPubrec? {
      ReleasedLoad(StoreEntry(DropEntry(s, a.id), Entry(a.id, StoredPubrec)), a.id, a.code);
    }
  }

  // A step keeps the balance, unless it is an acknowledgement that finds the quota at its maximum.
  lemma SendStep(s: State, a: Action)
    requires Enabled(s, a) && OneCall(s) && QuotaInv(s, 0) && SendBalance(s) && SerialUnrefused(s, a)
    ensures SendBalance(Apply(s, a)) <==> CreditTaken(s, a)
  {
    hide SendBalance;
    hide Apply;
    if CallAction(a) {
      CallBalances(s, a);
    } else if a.RecvPuback? || a.RecvPubcomp? {
      AckBalances(s, a);
    } else {
      OtherBalances(s, a);
    }
  }

  lemma {:induction false} InvariantsAlong(s: State, run: seq<Action>)
    requires OneCall(s) && QuotaInv(s, 0) && Possible(s, run) && Throughout(s, run, SerialUnrefused)
    ensures OneCall(After(s, run)) && QuotaInv(After(s, run), 0)
    decreases |run|
  {
    hide QuotaInv;
    hide OneCall;
    hide Apply;
    if run != [] {
      var before, a := After(s, Front(run)), Last(run);
      InvariantsAlong(s, Front(run));
      if CallAction(a) {
        CallStep(before, a, 0);
      } else {
        PollStep(before, a, 0);
      }
    }
  }

  lemma {:induction false} SendAlong(s: State, run: seq<Action>)
    requires OneCall(s) && QuotaInv(s, 0) && SendBalance(s) && Possible(s, run)
    requires Throughout(s, run, SerialUnrefused) && Throughout(s, run, CreditTaken)
    ensures Always(s, run, SendBalance)
    decreases |run|
  {
    hide QuotaInv;
    hide OneCall;
    hide Apply;
    hide SendBalance;
    if run != [] {
      SendAlong(s, Front(run));
      InvariantsAlong(s, Front(run));
      SendStep(After(s, Front(run)), Last(run));
    }
  }

  lemma {:induction false} SendOnlyThen(s: State, run: seq<Action>)
    requires OneCall(s) && QuotaInv(s, 0) && Possible(s, run)
    requires Throughout(s, run, SerialUnrefused) && Always(s, run, SendBalance)
    ensures Throughout(s, run, CreditTaken)
    decreases |run|
  {
    hide QuotaInv;
    hide OneCall;
    hide Apply;
    hide SendBalance;
    if run != [] {
      SendOnlyThen(s, Front(run));
      InvariantsAlong(s, Front(run));
      SendStep(After(s, Front(run)), Last(run));
    }
  }

  // Over every run of non-overlapping Publish calls against a conforming server without failing PUBRECs: no credit is
  // lost - the quota and the unfinished publishes make up the server's receive maximum all along, but for the
  // decrement pending - if and only if every PUBACK and PUBCOMP comes in while the quota is below its maximum, which
  // is to say after the decrement for it.
  lemma SendConservation(requestedMax: uint16, serverMax: uint16, storage: Option<seq<Exchange>>, run: seq<Action>)
    requires var s := Connected(requestedMax, serverMax, storage);
      Possible(s, run) && Throughout(s, run, SerialUnrefused)
    ensures var s := Connected(requestedMax, serverMax, storage);
      Always(s, run, SendBalance) <==> Throughout(s, run, CreditTaken)
  {
    var s := Connected(requestedMax, serverMax, storage);
    if Throughout(s, run, CreditTaken) {
      SendAlong(s, run);
    }
    if Always(s, run, SendBalance) {
      SendOnlyThen(s, run);
    }
  }

  // At most one credit is ever lost.
  ghost predicate OneLost(s: State) {
    s.sendQuota + Load(s) + 1 >= s.serverMax + Pending(s)
  }

  lemma OneLostStep(s: State, a: Action)
    requires Enabled(s, a) && OneCall(s) && QuotaInv(s, 0) && OneLost(s) && SerialUnrefused(s, a)
    ensures OneLost(Apply(s, a))
  {
    hide DropEntry;
    hide StoreEntry;
    hide Released;
    hide Delivered;
    hide Holds;
    hide StoreIn;
    hide WakeEnabled;
    hide Credit;
    hide Finished;
    if CallAction(a) {
      OneCallStep(s, a);
    } else if a.RecvPubrec? {
      ReleasedLoad(StoreEntry(DropEntry(s, a.id), Entry(a.id, StoredPubrec)), a.id, a.code);
    } else if a.RecvPuback? || a.RecvPubcomp? {
      var e := Entry(a.id, if a.RecvPuback? then StoredPublish(1) else StoredPubrec);
      CreditCalls(s, a.wake, 0);
      CreditAmount(s, a.wake);
      FinishedLoad(Credit(s, a.wake), e);
    }
  }

  lemma {:induction false} OneLostAlong(s: State, run: seq<Action>)
    requires OneCall(s) && QuotaInv(s, 0) && OneLost(s) && Possible(s, run) && Throughout(s, run, SerialUnrefused)
    ensures OneLost(After(s, run))
    decreases |run|
  {
    hide QuotaInv;
    hide OneCall;
    hide Apply;
    hide OneLost;
    if run != [] {
      OneLostAlong(s, Front(run));
      InvariantsAlong(s, Front(run));
      OneLostStep(After(s, Front(run)), Last(run));
    }
  }

  // Over the same runs, whenever the acknowledgements come in, quota and unfinished publishes together fall short of
  // the maximum by one credit at most.
  lemma CreditLoss(requestedMax: uint16, serverMax: uint16, storage: Option<seq<Exchange>>, run: seq<Action>)
    requires var s := Connected(requestedMax, serverMax, storage);
      Possible(s, run) && Throughout(s, run, SerialUnrefused)
    ensures var s := After(Connected(requestedMax, serverMax, storage), run);
      serverMax - 1 <= s.sendQuota + |s.open| + |s.refused| - Pending(s) <= serverMax
  {
    var s := Connected(requestedMax, serverMax, storage);
    OneLostAlong(s, run);
    InvariantsAlong(s, run);
    MaximaFixed(s, run);
  }
}
