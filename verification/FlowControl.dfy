// Flow control and the QoS exchanges (Client.Connect, Publish, Poll, sendPuback and sendPubrec in mqtt/client.go):
// publishers and a poller that share the quotas, a semaphore and the packet storage. A step is what runs between two
// points where another goroutine can get in.
module FlowControl {
  import opened Bits
  import opened MemoryStorage

  type QoS = q: int | 0 <= q <= 2

  // The two QoS bits of an inbound PUBLISH; the reader lets 3 through.
  type QoSBits = q: int | 0 <= q <= 3

  datatype Option<+T> = None | Some(value: T)

  // What the storage keeps for an exchange: the PUBLISH until it is acknowledged, a PUBREC from then on.
  datatype Stored = StoredPublish(qos: QoS) | StoredPubrec

  // An exchange, named by its storage entry: StoredPublish(1) awaits PUBACK, StoredPublish(2) PUBREC and StoredPubrec
  // PUBCOMP.
  type Exchange = Entry<Stored>

  // Where a call of Publish is.
  datatype Call =
    | Entered(qos: QoS, id: uint16)  // holds connMutex
    | Staged(qos: QoS, id: uint16)   // holds connMutex, the packet is persisted
    | Ready(qos: QoS, id: uint16)    // holds connMutex, about to send
    | Parked(qos: QoS, id: uint16)   // found no quota and released connMutex
    | Waiting(qos: QoS, id: uint16)  // blocked on the semaphore
    | Woken(qos: QoS, id: uint16)    // taken off the semaphore, needs connMutex
    | Unsettled                      // has sent and released connMutex, but not decremented the quota

  datatype State = State(
    serverMax: uint16,
    clientMax: uint16,
    sendQuota: uint16,
    receiveQuota: uint16,
    storage: Option<seq<Exchange>>,
    conn: Option<nat>,          // the call that holds connMutex
    calls: map<nat, Call>,      // the calls of Publish in progress
    halted: bool,               // Poll has returned an error
    staged: multiset<Exchange>,   // persisted by a call of Publish that has not sent yet
    open: multiset<Exchange>,     // QoS > 0 publishes sent and not finished
    refused: multiset<Exchange>,  // finished by a failing PUBREC, PUBREL sent, PUBCOMP still to come
    inbound: multiset<Exchange>,  // QoS 2 publishes received and not released
    leftover: multiset<Exchange>, // kept by the storage for good: from before, failed sends, inbound QoS 1 and 3
    unacknowledged: nat)          // publishes received that no acknowledgement will follow: QoS 0, and QoS bits 3

  datatype Action =
    | Enter(call: nat, qos: QoS, id: uint16)
    | Persist(call: nat)
    | Test(call: nat)
    | Wait(call: nat)
    | Resume(call: nat)
    | Send(call: nat)
    | Fail(call: nat)           // sending returns an error
    | Settle(call: nat)
    | RecvPuback(id: uint16, wake: Option<nat>)
    | RecvPubrec(id: uint16, code: byte)
    | RecvPubcomp(id: uint16, wake: Option<nat>)
    | RecvPublish(bits: QoSBits, id: uint16)
    | RecvPubrel(id: uint16)

  // After Connect. What the storage holds from before is left over.
  function Connected(requestedMax: uint16, serverMax: uint16, storage: Option<seq<Exchange>>): State {
    var clientMax := if requestedMax == 0 then serverMax else requestedMax;
    var leftover := if storage.Some? then multiset(storage.value) else multiset{};
    State(serverMax, clientMax, serverMax, clientMax, storage, None, map[], false, multiset{}, multiset{}, multiset{},
          multiset{}, leftover, 0)
  }

  // ---------- Steps ----------

  predicate WaitingCall(s: State, i: nat) {
    i in s.calls && s.calls[i].Waiting?
  }

  // Whether the locks allow a step. Poll holds connMutex from beginning to end. When a credit is given the poller
  // takes one blocked call off the semaphore if there is one.
  ghost predicate Enabled(s: State, a: Action) {
    && !s.halted
    && match a
       case Enter(i, _, _) => s.conn.None? && i !in s.calls
       case Persist(i) => s.conn == Some(i) && i in s.calls && s.calls[i].Entered?
       case Test(i) => s.conn == Some(i) && i in s.calls && s.calls[i].Staged?
       case Wait(i) => i in s.calls && s.calls[i].Parked?
       case Resume(i) => s.conn.None? && i in s.calls && s.calls[i].Woken?
       case Send(i) => s.conn == Some(i) && i in s.calls && s.calls[i].Ready?
       case Fail(i) => s.conn == Some(i) && i in s.calls && s.calls[i].Ready?
       case Settle(i) => i in s.calls && s.calls[i].Unsettled?
       case RecvPuback(_, wake) => s.conn.None? && WakeEnabled(s, wake)
       case RecvPubcomp(_, wake) => s.conn.None? && WakeEnabled(s, wake)
       case _ => s.conn.None?
  }

  ghost predicate WakeEnabled(s: State, wake: Option<nat>) {
    if s.sendQuota < s.serverMax then
      match wake
      case Some(i) => WaitingCall(s, i)
      case None => forall i <- s.calls :: !WaitingCall(s, i)
    else wake.None?
  }

  function Dec16(x: uint16): uint16 {
    if x == 0 then 0xFFFF else x - 1
  }

  function Inc16(x: uint16): uint16 {
    if x == 0xFFFF then 0 else x + 1
  }

  // One credit for a finished exchange, if the quota is below the server's maximum; a blocked call is woken with it.
  function Credit(s: State, wake: Option<nat>): (r: State)
    ensures r == s.(sendQuota := r.sendQuota, calls := r.calls)
  {
    if s.sendQuota >= s.serverMax then s
    else
      var s1 := s.(sendQuota := Inc16(s.sendQuota));
      if wake.Some? && WaitingCall(s, wake.value) then
        s1.(calls := s.calls[wake.value := Woken(s.calls[wake.value].qos, s.calls[wake.value].id)])
      else s1
  }

  // Storage.Drop; its error ends the run.
  function DropEntry(s: State, id: uint16): (r: State)
    ensures r == s.(storage := r.storage, halted := r.halted)
  {
    if s.storage.None? then s
    else if Holds(s.storage.value, id) then s.(storage := Some(DropFrom(s.storage.value, id)))
    else s.(halted := true)
  }

  // Storage.Store
  function StoreEntry(s: State, e: Exchange): (r: State)
    ensures r == s.(storage := r.storage)
  {
    if s.storage.None? then s else s.(storage := Some(StoreIn(s.storage.value, e.id, e.packet)))
  }

  function Finished(s: State, e: Exchange): (r: State)
    ensures r == s.(open := r.open, refused := r.refused)
  {
    if e in s.open then s.(open := s.open - multiset{e}) else s.(refused := s.refused - multiset{e})
  }

  // The preflight persistence of Publish; its error ends the call.
  function Persisted(s: State, i: nat): (r: State)
    requires i in s.calls && s.calls[i].Entered?
    ensures r == s.(storage := r.storage, conn := r.conn, calls := r.calls, staged := r.staged)
  {
    var c := s.calls[i];
    if c.qos == 0 then s.(calls := s.calls[i := Staged(c.qos, c.id)])
    else if s.storage.Some? && Holds(s.storage.value, c.id) then s.(conn := None, calls := s.calls - {i})
    else
      var e := Entry(c.id, StoredPublish(c.qos));
      StoreEntry(s, e).(calls := s.calls[i := Staged(c.qos, c.id)], staged := s.staged + multiset{e})
  }

  // What a call has in preparation leaves the staged packets when it is sent, or when sending fails.
  function Unstaged(s: State, i: nat): (r: State)
    requires i in s.calls && s.calls[i].Ready?
    ensures r == s.(conn := r.conn, calls := r.calls, staged := r.staged)
  {
    var c := s.calls[i];
    s.(conn := None, calls := s.calls - {i},
       staged := if c.qos == 0 then s.staged else s.staged - multiset{Entry(c.id, StoredPublish(c.qos))})
  }

  function SendOk(s: State, i: nat): (r: State)
    requires i in s.calls && s.calls[i].Ready?
    ensures r == s.(conn := r.conn, calls := r.calls, staged := r.staged, open := r.open)
  {
    var c := s.calls[i];
    if c.qos == 0 then Unstaged(s, i)
    else
      Unstaged(s, i).(calls := s.calls[i := Unsettled],
                      open := s.open + multiset{Entry(c.id, StoredPublish(c.qos))})
  }

  function SendFailed(s: State, i: nat): (r: State)
    requires i in s.calls && s.calls[i].Ready?
    ensures r == s.(conn := r.conn, calls := r.calls, staged := r.staged, leftover := r.leftover)
  {
    var c := s.calls[i];
    if c.qos == 0 then Unstaged(s, i)
    else Unstaged(s, i).(leftover := s.leftover + multiset{Entry(c.id, StoredPublish(c.qos))})
  }

  function OnPubrec(s: State, id: uint16, code: byte): (r: State)
    ensures r == s.(sendQuota := r.sendQuota, storage := r.storage, halted := r.halted, open := r.open,
                    refused := r.refused)
  {
    var s1 := if code > 0x80 && s.sendQuota < s.serverMax then s.(sendQuota := Inc16(s.sendQuota)) else s;
    var s2 := DropEntry(s1, id);
    if s2.halted then s2
    else if s2.storage.Some? && Holds(s2.storage.value, id) then s2.(halted := true)
    else Released(StoreEntry(s2, Entry(id, StoredPubrec)), id, code)
  }

  function OnPublish(s: State, bits: QoSBits, id: uint16): (r: State)
    ensures r == s.(receiveQuota := r.receiveQuota, storage := r.storage, halted := r.halted, inbound := r.inbound,
                    leftover := r.leftover, unacknowledged := r.unacknowledged)
  {
    if s.receiveQuota == 0 && bits > 0 then s.(halted := true)
    else Delivered(s.(receiveQuota := Dec16(s.receiveQuota)), bits, id)
  }

  function OnPubrel(s: State, id: uint16): (r: State)
    ensures r == s.(receiveQuota := r.receiveQuota, storage := r.storage, halted := r.halted, inbound := r.inbound)
  {
    var s1 := DropEntry(s, id);
    if s1.halted then s1
    else
      s1.(inbound := s.inbound - multiset{Entry(id, StoredPubrec)},
          receiveQuota := if s.receiveQuota < s.clientMax then Inc16(s.receiveQuota) else s.receiveQuota)
  }

  function Apply(s: State, a: Action): (r: State)
    requires Enabled(s, a)
    ensures r.serverMax == s.serverMax && r.clientMax == s.clientMax
  {
    match a
    case Enter(i, qos, id) => s.(conn := Some(i), calls := s.calls[i := Entered(qos, id)])
    case Persist(i) => Persisted(s, i)
    case Test(i) =>
      var c := s.calls[i];
      if s.sendQuota == 0 && c.qos > 0 then s.(conn := None, calls := s.calls[i := Parked(c.qos, c.id)])
      else s.(calls := s.calls[i := Ready(c.qos, c.id)])
    case Wait(i) => s.(calls := s.calls[i := Waiting(s.calls[i].qos, s.calls[i].id)])
    case Resume(i) => s.(conn := Some(i), calls := s.calls[i := Ready(s.calls[i].qos, s.calls[i].id)])
    case Send(i) => SendOk(s, i)
    case Fail(i) => SendFailed(s, i)
    case Settle(i) => s.(sendQuota := Dec16(s.sendQuota), calls := s.calls - {i})
    case RecvPuback(id, wake) => DropEntry(Finished(Credit(s, wake), Entry(id, StoredPublish(1))), id)
    case RecvPubcomp(id, wake) => DropEntry(Finished(Credit(s, wake), Entry(id, StoredPubrec)), id)
    case RecvPubrec(id, code) => OnPubrec(s, id, code)
    case RecvPublish(bits, id) => OnPublish(s, bits, id)
    case RecvPubrel(id) => OnPubrel(s, id)
  }

  // After PUBREL has been sent: a code of 0x80 or more has finished the exchange at the server.
  function Released(s: State, id: uint16, code: byte): (r: State)
    ensures r == s.(open := r.open, refused := r.refused)
  {
    var s1 := s.(open := s.open - multiset{Entry(id, StoredPublish(2))});
    if code >= 0x80 then s1.(refused := s1.refused + multiset{Entry(id, StoredPubrec)})
    else s1.(open := s1.open + multiset{Entry(id, StoredPubrec)})
  }

  // An inbound PUBLISH behind the quota test: PUBACK or PUBREC, which need a packet identifier, and for QoS > 0 a
  // PUBREC for the storage.
  function Delivered(s: State, bits: QoSBits, id: uint16): (r: State)
    ensures r == s.(receiveQuota := r.receiveQuota, storage := r.storage, halted := r.halted, inbound := r.inbound,
                    leftover := r.leftover, unacknowledged := r.unacknowledged)
  {
    var e := Entry(id, StoredPubrec);
    if bits == 0 then s.(unacknowledged := s.unacknowledged + 1)
    else if id == 0 && bits != 3 then s.(halted := true)
    else
      var s1 := StoreEntry(s, e);
      match bits
      case 1 => s1.(receiveQuota := Inc16(s.receiveQuota), leftover := s.leftover + multiset{e})
      case 2 => s1.(inbound := s.inbound + multiset{e})
      case _ => s1.(unacknowledged := s.unacknowledged + 1, leftover := s.leftover + multiset{e})
  }

  // ---------- Runs ----------

  // Publish calls do not overlap.
  ghost predicate Serial(s: State, a: Action) {
    a.Enter? ==> s.calls == map[]
  }

  // The server acknowledges only what is outstanding and releases only what it has been sent a PUBREC for.
  ghost predicate Conforms(s: State, a: Action) {
    match a
    case RecvPuback(id, _) => Entry(id, StoredPublish(1)) in s.open
    case RecvPubrec(id, _) => Entry(id, StoredPublish(2)) in s.open
    case RecvPubcomp(id, _) => Entry(id, StoredPubrec) in s.open + s.refused
    case RecvPubrel(id) => Entry(id, StoredPubrec) in s.inbound
    case _ => true
  }

  // Inbound QoS 0 publishes arrive only while there is receive quota.
  predicate QoS0WithQuota(s: State, a: Action) {
    a.RecvPublish? && a.bits == 0 ==> s.receiveQuota > 0
  }

  // A run the locks allow ...
  ghost predicate Possible(s: State, run: seq<Action>)
    decreases |run|, 0
  {
    run == [] || (Possible(s, Front(run)) && Enabled(After(s, Front(run)), Last(run)))
  }

  // ... and where it leads.
  ghost function After(s: State, run: seq<Action>): State
    requires Possible(s, run)
    decreases |run|, 1
  {
    if run == [] then s else Apply(After(s, Front(run)), Last(run))
  }

  // A condition on every step of a run.
  ghost predicate Throughout(s: State, run: seq<Action>, p: (State, Action) -> bool)
    requires Possible(s, run)
  {
    run == [] || (Throughout(s, Front(run), p) && p(After(s, Front(run)), Last(run)))
  }

  // A condition on every state of a run.
  ghost predicate Always(s: State, run: seq<Action>, inv: State -> bool)
    requires Possible(s, run)
  {
    inv(After(s, run)) && (run == [] || Always(s, Front(run), inv))
  }

  function Front(run: seq<Action>): seq<Action>
    requires run != []
  {
    run[..|run| - 1]
  }

  function Last(run: seq<Action>): Action
    requires run != []
  {
    run[|run| - 1]
  }

  // ---------- Invariants of serial runs ----------

  predicate Holder(c: Call) {
    c.Entered? || c.Staged? || c.Ready?
  }

  // At most one call, which holds connMutex exactly while it prepares and sends; only QoS > 0 is ever held back.
  ghost predicate OneCall(s: State) {
    && (forall i <- s.calls, j <- s.calls :: i == j)
    && (forall i <- s.calls :: if Holder(s.calls[i]) then s.conn == Some(i) else s.conn.None?)
    && (s.calls == map[] ==> s.conn.None?)
    && (forall i <- s.calls :: s.calls[i].Parked? || s.calls[i].Waiting? || s.calls[i].Woken? ==> s.calls[i].qos > 0)
  }

  // A call that is about to send a QoS > 0 packet, or has not yet paid for one.
  predicate NeedsQuota(c: Call) {
    c.Woken? || c.Unsettled? || (c.Ready? && c.qos > 0)
  }

  ghost function Pending(s: State): nat {
    if exists i <- s.calls :: s.calls[i].Unsettled? then 1 else 0
  }

  // The flow-control invariant of section 4.9: quota and unfinished publishes exceed the server's maximum by no more
  // than the one decrement still pending and the k refusals, each of which is credited twice.
  ghost predicate QuotaInv(s: State, k: nat) {
    && s.sendQuota <= s.serverMax
    && s.sendQuota + |s.open| + |s.refused| <= s.serverMax + Pending(s) + k
    && (forall i <- s.calls :: NeedsQuota(s.calls[i]) ==> s.sendQuota >= 1)
  }

  // The exchanges that still have to end.
  function Load(s: State): nat {
    |s.open| + |s.refused|
  }

  predicate CallAction(a: Action) {
    a.Enter? || a.Persist? || a.Test? || a.Wait? || a.Resume? || a.Send? || a.Fail? || a.Settle?
  }

  // How a step of call i changes the calls: i is the only one before and after.
  ghost predicate Moves(s: State, s': State, i: nat) {
    && (forall j <- s.calls :: j == i)
    && (forall j <- s'.calls :: j == i)
    && (i !in s'.calls ==> s'.conn.None?)
    && (i in s'.calls ==>
          && (if Holder(s'.calls[i]) then s'.conn == Some(i) else s'.conn.None?)
          && (s'.calls[i].Parked? || s'.calls[i].Waiting? || s'.calls[i].Woken? ==> s'.calls[i].qos > 0))
  }

  lemma PersistMoves(s: State, i: nat)
    requires OneCall(s) && i in s.calls && s.calls[i].Entered?
    ensures Moves(s, Persisted(s, i), i)
  {
    hide StoreIn;
    hide Holds;
  }

  lemma SendMoves(s: State, i: nat)
    requires OneCall(s) && i in s.calls && s.calls[i].Ready?
    ensures Moves(s, SendOk(s, i), i) && Moves(s, SendFailed(s, i), i)
  {
  }

  lemma OtherMoves(s: State, a: Action)
    requires Enabled(s, a) && OneCall(s) && Serial(s, a) && CallAction(a) && !a.Persist? && !a.Send? && !a.Fail?
    ensures Moves(s, Apply(s, a), a.call)
  {
    hide Persisted;
    hide SendOk;
    hide SendFailed;
    hide WakeEnabled;
    hide Credit;
    hide DropEntry;
    hide Finished;
    hide OnPubrec;
    hide OnPublish;
    hide OnPubrel;
  }

  lemma OneCallStep(s: State, a: Action)
    requires Enabled(s, a) && OneCall(s) && Serial(s, a) && CallAction(a)
    ensures OneCall(Apply(s, a)) && Moves(s, Apply(s, a), a.call)
  {
    hide Persisted;
    hide SendOk;
    hide SendFailed;
    hide Moves;
    hide OneCall;
    hide Serial;
    if a.Persist? {
      PersistMoves(s, a.call);
    } else if a.Send? || a.Fail? {
      SendMoves(s, a.call);
    } else {
      OtherMoves(s, a);
    }
    MovesToOne(s, Apply(s, a), a.call);
  }

  lemma MovesToOne(s: State, s': State, i: nat)
    requires Moves(s, s', i)
    ensures OneCall(s')
  {
  }

  lemma CallStep(s: State, a: Action, k: nat)
    requires Enabled(s, a) && OneCall(s) && QuotaInv(s, k) && Serial(s, a) && CallAction(a)
    ensures OneCall(Apply(s, a)) && QuotaInv(Apply(s, a), k)
  {
    hide StoreIn;
    hide Holds;
    OneCallStep(s, a);
  }

  // The invariants are about the quota, the load, connMutex and the calls.
  lemma SameFlow(s: State, s': State, k: nat)
    requires OneCall(s) && QuotaInv(s, k)
    requires s'.sendQuota == s.sendQuota && s'.serverMax == s.serverMax && Load(s') <= Load(s)
    requires s'.calls == s.calls && s'.conn == s.conn
    ensures OneCall(s') && QuotaInv(s', k)
  {
  }

  lemma FinishedLoad(s: State, e: Exchange)
    requires e in s.open + s.refused
    ensures Load(Finished(s, e)) == Load(s) - 1
  {
    if e in s.open {
      assert |s.open - multiset{e}| == |s.open| - 1;
    } else {
      assert |s.refused - multiset{e}| == |s.refused| - 1;
    }
  }

  lemma ReleasedLoad(s: State, id: uint16, code: byte)
    requires Entry(id, StoredPublish(2)) in s.open
    ensures Load(Released(s, id, code)) == Load(s)
  {
    assert |s.open - multiset{Entry(id, StoredPublish(2))}| == |s.open| - 1;
  }

  // A credit given together with the end of an exchange.
  lemma CreditStep(s: State, wake: Option<nat>, e: Exchange, k: nat)
    requires OneCall(s) && QuotaInv(s, k) && WakeEnabled(s, wake) && s.conn.None? && e in s.open + s.refused
    ensures OneCall(Finished(Credit(s, wake), e)) && QuotaInv(Finished(Credit(s, wake), e), k)
  {
    var s1 := Credit(s, wake);
    FinishedLoad(s1, e);
    CreditCalls(s, wake, k);
  }

  lemma CreditCalls(s: State, wake: Option<nat>, k: nat)
    requires OneCall(s) && QuotaInv(s, k) && WakeEnabled(s, wake) && s.conn.None?
    ensures var s1 := Credit(s, wake);
      && OneCall(s1) && Pending(s1) == Pending(s) && s.sendQuota <= s1.sendQuota <= s.serverMax
      && s1.sendQuota <= s.sendQuota + 1 && (s1.sendQuota == s.sendQuota ==> s.sendQuota == s.serverMax && s1 == s)
      && (forall i <- s1.calls :: NeedsQuota(s1.calls[i]) ==> s1.sendQuota >= 1)
  {
    if s.sendQuota < s.serverMax && wake.Some? {
      var i := wake.value;
      assert s.calls == map[i := s.calls[i]];
    }
  }

  lemma RefusalCredit(s: State, code: byte, k: nat)
    requires OneCall(s) && QuotaInv(s, k)
    ensures var s1 := if code > 0x80 && s.sendQuota < s.serverMax then s.(sendQuota := Inc16(s.sendQuota)) else s;
      OneCall(s1) && QuotaInv(s1, k + if code > 0x80 then 1 else 0)
  {
  }

  lemma PubrecStep(s: State, id: uint16, code: byte, k: nat)
    requires OneCall(s) && QuotaInv(s, k) && Entry(id, StoredPublish(2)) in s.open
    ensures OneCall(OnPubrec(s, id, code)) && QuotaInv(OnPubrec(s, id, code), k + if code > 0x80 then 1 else 0)
  {
    hide OneCall;
    hide QuotaInv;
    hide Holds;
    hide DropEntry;
    hide StoreEntry;
    hide Released;
    var s1 := if code > 0x80 && s.sendQuota < s.serverMax then s.(sendQuota := Inc16(s.sendQuota)) else s;
    RefusalCredit(s, code, k);
    ReleasedLoad(StoreEntry(DropEntry(s1, id), Entry(id, StoredPubrec)), id, code);
    SameFlow(s1, OnPubrec(s, id, code), k + if code > 0x80 then 1 else 0);
  }

  lemma InboundStep(s: State, a: Action, k: nat)
    requires Enabled(s, a) && OneCall(s) && QuotaInv(s, k) && (a.RecvPublish? || a.RecvPubrel?)
    ensures OneCall(Apply(s, a)) && QuotaInv(Apply(s, a), k)
  {
    hide OneCall;
    hide QuotaInv;
    hide DropEntry;
    hide StoreEntry;
    SameFlow(s, Apply(s, a), k);
  }

  lemma AckStep(s: State, a: Action, k: nat)
    requires Enabled(s, a) && OneCall(s) && QuotaInv(s, k) && Conforms(s, a) && (a.RecvPuback? || a.RecvPubcomp?)
    ensures OneCall(Apply(s, a)) && QuotaInv(Apply(s, a), k)
  {
    hide OneCall;
    hide QuotaInv;
    hide DropEntry;
    hide Credit;
    hide Finished;
    hide WakeEnabled;
    var e := Entry(a.id, if a.RecvPuback? then StoredPublish(1) else StoredPubrec);
    var s1 := Finished(Credit(s, a.wake), e);
    CreditStep(s, a.wake, e, k);
    SameFlow(s1, Apply(s, a), k);
  }

  lemma PollStep(s: State, a: Action, k: nat)
    requires Enabled(s, a) && OneCall(s) && QuotaInv(s, k) && Conforms(s, a)
    requires a.RecvPuback? || a.RecvPubrec? || a.RecvPubcomp? || a.RecvPublish? || a.RecvPubrel?
    ensures OneCall(Apply(s, a)) && QuotaInv(Apply(s, a), k + Refusal(a))
  {
    hide OneCall;
    hide QuotaInv;
    hide WakeEnabled;
    hide Credit;
    hide DropEntry;
    hide OnPubrec;
    hide OnPublish;
    hide OnPubrel;
    hide Persisted;
    if a.RecvPubrec? {
      PubrecStep(s, a.id, a.code, k);
    } else if a.RecvPublish? || a.RecvPubrel? {
      InboundStep(s, a, k);
    } else {
      AckStep(s, a, k);
    }
  }

  function Refusal(a: Action): nat {
    if a.RecvPubrec? && a.code > 0x80 then 1 else 0
  }

  // The failing PUBRECs of a run.
  function Refusals(run: seq<Action>): nat {
    if run == [] then 0 else Refusals(Front(run)) + Refusal(Last(run))
  }

  lemma {:induction false} QuotaAlong(s: State, run: seq<Action>)
    requires OneCall(s) && QuotaInv(s, 0)
    requires Possible(s, run) && Throughout(s, run, Serial) && Throughout(s, run, Conforms)
    ensures OneCall(After(s, run)) && QuotaInv(After(s, run), Refusals(run))
    decreases |run|
  {
    if run != [] {
      var before, a := After(s, Front(run)), Last(run);
      QuotaAlong(s, Front(run));
      if CallAction(a) {
        CallStep(before, a, Refusals(Front(run)));
      } else {
        PollStep(before, a, Refusals(Front(run)));
      }
    }
  }

  // A run keeps the two maxima agreed on in Connect.
  lemma {:induction false} MaximaFixed(s: State, run: seq<Action>)
    requires Possible(s, run)
    ensures After(s, run).serverMax == s.serverMax && After(s, run).clientMax == s.clientMax
    decreases |run|
  {
    hide Apply;
    if run != [] {
      MaximaFixed(s, Front(run));
    }
  }

  // Section 4.9 of MQTT 5.0, over every run of non-overlapping Publish calls and a poller against a conforming server:
  // the QoS > 0 publishes sent and not finished exceed the server's receive maximum by no more than the PUBRECs with a
  // reason code above 0x80 there have been, so not at all in a run without; a call about to send one finds quota left,
  // also after it was woken; and the pending decrement never wraps around.
  lemma QuotaSafety(requestedMax: uint16, serverMax: uint16, storage: Option<seq<Exchange>>, run: seq<Action>)
    requires var s := Connected(requestedMax, serverMax, storage);
      Possible(s, run) && Throughout(s, run, Serial) && Throughout(s, run, Conforms)
    ensures var s := After(Connected(requestedMax, serverMax, storage), run);
      && |s.open| <= serverMax + Refusals(run) && s.sendQuota <= serverMax
      && s.sendQuota + |s.open| <= serverMax + Pending(s) + Refusals(run)
      && (forall i <- s.calls :: NeedsQuota(s.calls[i]) ==> s.sendQuota >= 1)
      && (forall i <- s.calls :: s.calls[i].Ready? && s.calls[i].qos > 0 ==> |s.open| < serverMax + Refusals(run))
  {
    QuotaAlong(Connected(requestedMax, serverMax, storage), run);
    MaximaFixed(Connected(requestedMax, serverMax, storage), run);
  }
}
