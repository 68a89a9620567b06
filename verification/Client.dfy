// The client's quotas and storage as mqtt/client.go updates them: each method is what Connect, Publish or Poll does
// between two points where another goroutine can get in, and is one step of the machine in FlowControl.
module Clients {
  import opened Bits
  import opened MemoryStorage
  import opened FlowControl

  // Where the goroutines are, and what has passed between client and server.
  datatype Session = Session(
    conn: Option<nat>,
    calls: map<nat, Call>,
    halted: bool,
    staged: multiset<Exchange>,
    open: multiset<Exchange>,
    refused: multiset<Exchange>,
    inbound: multiset<Exchange>,
    leftover: multiset<Exchange>,
    unacknowledged: nat)

  class Client {
    var serverReceiveMaximum: uint16
    var clientReceiveMaximum: uint16
    var sendQuota: uint16
    var receiveQuota: uint16
    var storage: Storage?<Stored>
    ghost var session: Session

    ghost function Now(): State
      reads this, storage
    {
      State(serverReceiveMaximum, clientReceiveMaximum, sendQuota, receiveQuota,
            if storage == null then None else Some(storage.store),
            session.conn, session.calls, session.halted, session.staged, session.open, session.refused,
            session.inbound, session.leftover, session.unacknowledged)
    }

    constructor (storage: Storage?<Stored>)
      ensures this.storage == storage
    {
      this.storage := storage;
      serverReceiveMaximum, clientReceiveMaximum, sendQuota, receiveQuota := 0, 0, 0, 0;
    }

    // The receive maximum of the CONNECT packet, where 0 stands for none, and the one of the CONNACK.
    method Connect(requestedMax: uint16, connackMax: uint16)
      modifies this
      ensures storage == old(storage)
      ensures Now() == Connected(requestedMax, connackMax, old(Now()).storage)
    {
      serverReceiveMaximum := connackMax;
      if requestedMax == 0 {
        clientReceiveMaximum := serverReceiveMaximum;
      } else {
        clientReceiveMaximum := requestedMax;
      }
      sendQuota := serverReceiveMaximum;
      receiveQuota := clientReceiveMaximum;
      session := Session(None, map[], false, multiset{}, multiset{}, multiset{}, multiset{},
                         if storage == null then multiset{} else multiset(storage.store), 0);
    }

    // ---------- Publish ----------

    ghost method Place(call: nat, conn: Option<nat>, at: Call)
      modifies this`session
      ensures Now() == old(Now()).(conn := conn, calls := old(Now()).calls[call := at])
    {
      session := session.(conn := conn, calls := session.calls[call := at]);
    }

    // A packet without an identifier gets a random one.
    method PublishEnter(ghost call: nat, qos: QoS, requested: uint16, rng: uint32) returns (id: uint16)
      requires forall i: uint16 :: Enabled(Now(), Enter(call, qos, i))
      modifies this
      ensures storage == old(storage)
      ensures id == if qos > 0 && requested == 0 then rng % 0x1_0000 else requested
      ensures Now() == Apply(old(Now()), Enter(call, qos, id))
    {
      id := requested;
      if qos > 0 && requested == 0 {
        id := rng % 0x1_0000;
      }
      assert Enabled(Now(), Enter(call, qos, id));
      Place(call, Some(call), Entered(qos, id));
    }

    method PublishPersist(ghost call: nat, qos: QoS, id: uint16) returns (ok: bool)
      requires Enabled(Now(), Persist(call)) && session.calls[call] == Entered(qos, id)
      modifies this, storage
      ensures storage == old(storage)
      ensures Now() == Apply(old(Now()), Persist(call))
      ensures ok <==> call in session.calls
    {
      if qos > 0 && storage != null {
        var r := storage.Store(id, StoredPublish(qos));
        if r == ErrDuplicateEntry {
          session := session.(conn := None, calls := session.calls - {call});
          return false;
        }
      }
      Place(call, session.conn, Staged(qos, id));
      if qos > 0 {
        session := session.(staged := session.staged + multiset{Entry(id, StoredPublish(qos))});
      }
      return true;
    }

    method PublishTest(ghost call: nat, qos: QoS, id: uint16) returns (delayed: bool)
      requires Enabled(Now(), Test(call)) && session.calls[call] == Staged(qos, id)
      modifies this
      ensures storage == old(storage)
      ensures Now() == Apply(old(Now()), Test(call))
      ensures delayed <==> session.calls[call] == Parked(qos, id)
    {
      delayed := sendQuota == 0 && qos > 0;
      if delayed {
        Place(call, None, Parked(qos, id));
      } else {
        Place(call, session.conn, Ready(qos, id));
      }
    }

    ghost method PublishWait(call: nat)
      requires Enabled(Now(), Wait(call))
      modifies this`session
      ensures Now() == Apply(old(Now()), Wait(call))
    {
      Place(call, session.conn, Waiting(session.calls[call].qos, session.calls[call].id));
    }

    ghost method PublishResume(call: nat)
      requires Enabled(Now(), Resume(call))
      modifies this`session
      ensures Now() == Apply(old(Now()), Resume(call))
    {
      Place(call, Some(call), Ready(session.calls[call].qos, session.calls[call].id));
    }

    // The packet is on the connection, and connMutex unlocked.
    ghost method PublishSend(call: nat)
      requires Enabled(Now(), Send(call))
      modifies this`session
      ensures Now() == Apply(old(Now()), Send(call))
    {
      var c := session.calls[call];
      if c.qos == 0 {
        session := session.(conn := None, calls := session.calls - {call});
      } else {
        var e := Entry(c.id, StoredPublish(c.qos));
        session := session.(staged := session.staged - multiset{e}, open := session.open + multiset{e});
        Place(call, None, Unsettled);
      }
    }

    // The write returned an error, and the call returns it: connMutex is unlocked, the packet stays in the storage.
    ghost method PublishFail(call: nat)
      requires Enabled(Now(), Fail(call))
      modifies this`session
      ensures Now() == Apply(old(Now()), Fail(call))
    {
      var c := session.calls[call];
      if c.qos > 0 {
        var e := Entry(c.id, StoredPublish(c.qos));
        session := session.(staged := session.staged - multiset{e}, leftover := session.leftover + multiset{e});
      }
      session := session.(conn := None, calls := session.calls - {call});
    }

    method PublishSettle(ghost call: nat)
      requires Enabled(Now(), Settle(call))
      modifies this
      ensures storage == old(storage)
      ensures Now() == Apply(old(Now()), Settle(call))
    {
      sendQuota := if sendQuota == 0 then 0xFFFF else sendQuota - 1;
      session := session.(calls := session.calls - {call});
    }

    // ---------- Poll ----------

    // The credit for a PUBACK or a PUBCOMP. Which blocked call is taken off the semaphore is up to the scheduler.
    method ReturnCredit(ghost wake: Option<nat>)
      requires WakeEnabled(Now(), wake)
      modifies this`sendQuota, this`session
      ensures Now() == Credit(old(Now()), wake)
    {
      if sendQuota < serverReceiveMaximum {
        sendQuota := sendQuota + 1;
        if wake.Some? {
          ghost var c := session.calls[wake.value];
          Place(wake.value, session.conn, Woken(c.qos, c.id));
        }
      }
    }

    ghost method Finish(e: Exchange)
      modifies this`session
      ensures Now() == Finished(old(Now()), e)
    {
      if e in session.open {
        session := session.(open := session.open - multiset{e});
      } else {
        session := session.(refused := session.refused - multiset{e});
      }
    }

    ghost method Halt()
      modifies this`session
      ensures Now() == old(Now()).(halted := true)
    {
      session := session.(halted := true);
    }

    // Drops a stored packet; the caller returns the error.
    method Forget(id: uint16) returns (ok: bool)
      modifies storage, this`session
      ensures Now() == DropEntry(old(Now()), id)
      ensures !ok <==> old(Now()).storage.Some? && !Holds(old(Now()).storage.value, id)
    {
      ok := true;
      if storage != null {
        var r := storage.Drop(id);
        if r == ErrNoSuchEntry {
          Halt();
          ok := false;
        }
      }
    }

    // Stores a packet unless its identifier is taken.
    method Remember(id: uint16, packet: Stored) returns (ok: bool)
      modifies storage
      ensures Now() == StoreEntry(old(Now()), Entry(id, packet))
      ensures !ok <==> old(Now()).storage.Some? && Holds(old(Now()).storage.value, id)
    {
      ok := true;
      if storage != null {
        var r := storage.Store(id, packet);
        ok := r == Ok;
      }
    }

    method HandlePuback(id: uint16, ghost wake: Option<nat>) returns (ok: bool)
      requires Enabled(Now(), RecvPuback(id, wake))
      modifies this, storage
      ensures storage == old(storage)
      ensures Now() == Apply(old(Now()), RecvPuback(id, wake))
      ensures ok <==> !session.halted
    {
      ReturnCredit(wake);
      Finish(Entry(id, StoredPublish(1)));
      ok := Forget(id);
    }

    method HandlePubcomp(id: uint16, ghost wake: Option<nat>) returns (ok: bool)
      requires Enabled(Now(), RecvPubcomp(id, wake))
      modifies this, storage
      ensures storage == old(storage)
      ensures Now() == Apply(old(Now()), RecvPubcomp(id, wake))
      ensures ok <==> !session.halted
    {
      ReturnCredit(wake);
      Finish(Entry(id, StoredPubrec));
      ok := Forget(id);
    }

    // PUBREL has gone out.
    ghost method Release(id: uint16, code: byte)
      modifies this`session
      ensures Now() == Released(old(Now()), id, code)
    {
      session := session.(open := session.open - multiset{Entry(id, StoredPublish(2))});
      if code >= 0x80 {
        session := session.(refused := session.refused + multiset{Entry(id, StoredPubrec)});
      } else {
        session := session.(open := session.open + multiset{Entry(id, StoredPubrec)});
      }
    }

    method HandlePubrec(id: uint16, code: byte) returns (ok: bool)
      requires Enabled(Now(), RecvPubrec(id, code))
      modifies this, storage
      ensures storage == old(storage)
      ensures Now() == Apply(old(Now()), RecvPubrec(id, code))
      ensures ok <==> !session.halted
    {
      hide DropFrom;
      hide Holds;
      hide Released;
      if code > 0x80 && sendQuota < serverReceiveMaximum {
        sendQuota := sendQuota + 1;
      }
      ok := Forget(id);
      if !ok {
        return;
      }
      ok := Remember(id, StoredPubrec);
      if !ok {
        Halt();
        return;
      }
      Release(id, code);
    }

    // PUBACK or PUBREC, and the PUBREC for the storage, whose answer is not looked at.
    method Acknowledge(bits: QoSBits, id: uint16) returns (ok: bool)
      requires !session.halted
      modifies this`receiveQuota, this`session, storage
      ensures Now() == Delivered(old(Now()), bits, id)
      ensures ok <==> !session.halted
    {
      hide StoreIn;
      hide Holds;
      if (bits == 1 || bits == 2) && id == 0 {
        Halt();
        return false;
      }
      if bits == 1 {
        receiveQuota := if receiveQuota == 0xFFFF then 0 else receiveQuota + 1;
      }
      Receive(bits, Entry(id, StoredPubrec));
      if bits > 0 {
        var _ := Remember(id, StoredPubrec);
      }
      return true;
    }

    ghost method Receive(bits: QoSBits, e: Exchange)
      modifies this`session
      ensures Now() == match bits
        case 0 => old(Now()).(unacknowledged := old(Now()).unacknowledged + 1)
        case 1 => old(Now()).(leftover := old(Now()).leftover + multiset{e})
        case 2 => old(Now()).(inbound := old(Now()).inbound + multiset{e})
        case _ => old(Now()).(leftover := old(Now()).leftover + multiset{e},
                              unacknowledged := old(Now()).unacknowledged + 1)
    {
      if bits == 2 {
        session := session.(inbound := session.inbound + multiset{e});
      } else if bits > 0 {
        session := session.(leftover := session.leftover + multiset{e});
      }
      if bits == 0 || bits == 3 {
        session := session.(unacknowledged := session.unacknowledged + 1);
      }
    }

    method HandlePublish(bits: QoSBits, id: uint16) returns (ok: bool)
      requires Enabled(Now(), RecvPublish(bits, id))
      modifies this, storage
      ensures storage == old(storage)
      ensures Now() == Apply(old(Now()), RecvPublish(bits, id))
      ensures ok <==> !session.halted
    {
      hide Delivered;
      if receiveQuota == 0 && bits > 0 {
        Halt();
        return false;
      }
      receiveQuota := if receiveQuota == 0 then 0xFFFF else receiveQuota - 1;
      ok := Acknowledge(bits, id);
    }

    // PUBCOMP has gone out.
    method Complete(id: uint16)
      modifies this`receiveQuota, this`session
      ensures Now() == old(Now()).(
                inbound := old(session.inbound) - multiset{Entry(id, StoredPubrec)},
                receiveQuota := if old(receiveQuota) < clientReceiveMaximum then old(receiveQuota) + 1
                                else old(receiveQuota))
    {
      session := session.(inbound := session.inbound - multiset{Entry(id, StoredPubrec)});
      if receiveQuota < clientReceiveMaximum {
        receiveQuota := receiveQuota + 1;
      }
    }

    method HandlePubrel(id: uint16) returns (ok: bool)
      requires Enabled(Now(), RecvPubrel(id))
      modifies this, storage
      ensures storage == old(storage)
      ensures Now() == Apply(old(Now()), RecvPubrel(id))
      ensures ok <==> !session.halted
    {
      hide DropFrom;
      hide Holds;
      ok := Forget(id);
      if !ok {
        return;
      }
      Complete(id);
    }
  }
}
