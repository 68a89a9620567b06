# An MQTT 5.0 client: flow control, topic matching, packets and event channels

This project models the core of a Go client for MQTT 5.0 (OASIS MQTT Version 5.0) and proves what the client's
documentation and the standard promise of it. Where the code does not keep a promise, the code is modelled as it is, a
lemma gives a concrete input or run, and a theorem says exactly when the promise is kept.

`dafny verify dfyconfig.toml` checks everything.

| file | what it models |
|---|---|
| `Bits.dfy`, `Primitives.dfy` | machine integers; variable byte integers, strings, byte buffers |
| `Properties.dfy`, `Frames.dfy` | the property block, the fixed header, and the frame all writers share |
| `Publish.dfy`, `Acks.dfy`, `Subscriptions.dfy` | the packets as classes with their writers and readers |
| `Requests.dfy` | a server's reader of SUBSCRIBE and UNSUBSCRIBE |
| `UnknownProperties.dfy` | what the readers make of a property they do not know |
| `Octets.dfy` | the bytes the writers emit against the tables of MQTT 5.0 |
| `PacketStream.dfy`, `Truncation.dfy` | the header-first dispatch of `Poll` over a byte stream, and over one that has been cut off |
| `TopicMatch.dfy` | `matchTopic` against section 4.7.1 of MQTT 5.0 |
| `MemoryStorage.dfy` | the in-memory packet storage |
| `FlowControl.dfy`, `Client.dfy` | the quotas and the QoS exchanges as a state machine with the safety of the send quota, and the client's fields with one method per step |
| `Exchanges.dfy` | what each exchange does from beginning to end, and when a blocked call of `Publish` goes on |
| `FlowStorage.dfy`, `FlowRuns.dfy`, `QuotaExact.dfy` | theorems over runs of the machine: the storage, the balance of both quotas, and exactly when the quotas fail |
| `Events.dfy` | the event-channel registry and the routing of inbound packets, as whole operations |
| `EventRaces.dfy`, `EventDelivery.dfy` | the same with the goroutines interleaved: exactly when something panics, and who gets a PUBLISH |

## How it is modelled

**Flow control.** `FlowControl.State` holds both quotas, the storage and the position of every call of `Publish` in
progress. An action is what runs between two points where another goroutine can get in: `Publish` is cut into taking
connMutex, persisting, testing the quota, blocking on the semaphore, resuming, sending (or failing to), and the
decrement, which comes after connMutex has been released; a packet handled by `Poll` is one action, because `Poll`
holds connMutex throughout. `Enabled` says which actions the locks allow. A credit takes a blocked call off the
semaphore if one is blocked. A run is any sequence of enabled actions, and the theorems are about all runs; their
assumptions are conditions on single actions that a user or a server can meet (`Serial`: calls of `Publish` do not
overlap; `Conforms`: the server acknowledges only what is outstanding and releases only what it got a PUBREC for).
Apart from `Conforms`, an if-and-only-if theorem says of each what is lost without it. An error returned by `Poll`
ends a run. The history of packets (`staged`, `open`, `refused`, `inbound`, `leftover`, `unacknowledged`) is not in
the Go code and is ghost state of the class `Clients.Client`, whose methods update the real fields and the real
storage and are each proved to be one action.

The refusal of a QoS > 0 publish at receive quota 0 is an error: `disconnectWithReason` tests the connection the wrong
way round (mqtt/client.go:398), so on a connected client it returns an error and `Poll` ends.

**Matching.** Topics and filters are byte strings, as in Go. `LevelMatch` is the level-by-level definition of section
4.7.1, with `#` standing for one or more levels; `StandardMatch` adds that `a/#` matches `a`. `matchTopic` has a third
outcome, the index past the end of the topic at mqtt/client.go:1169, because its guard tests the filter position. Its
comments describe the standard rules; the model follows the code.

**Packets.** A Go string is a sequence of bytes and a byte an integer below 256; masks of low bits are remainders,
right shifts divisions, and bitwise or and the 32-bit left shift are functions related to arithmetic by lemmas.
Lengths are 32-bit and wrap around. A packet is written to a byte buffer and read from a byte stream that gives full
reads: a read of more than is left fails. A loop over a user-property map visits the keys in an arbitrary order, the
loop that adds up the lengths in another one than the loop that writes. The two loops are the same in every writer and
are shared methods here. Every writer's `ensures` names the frame of its fields; `ghost` results give the order of the
map. Readers are proved against functions over all inputs, malformed ones included; a property with an unknown
identifier adds the previous count again, as the Go loop does, and `UnknownProperties` says what is lost by it:
section 3.3.2.3.2 of MQTT 5.0 has a Payload Format Indicator, which the Go reader does not know.

**Event channels.** A Go channel is named by a number, 0 being nil, and lives in a map from numbers to capacity, queue
and state; `accepted` and `taken` record its history and are not in the Go code. Sending on a closed channel, closing
a nil or closed one, and the out-of-range access in the matcher panic. Loops over maps pick keys in an arbitrary
order.

In `Events` an operation is one step. The Go code takes less care: `Poll` ranges over `topicChans` with no lock held
and copies a channel before `signal` takes eventMutex, and `Unsubscribe` works under `c.mutex`, `CloseEventChannel`
under eventMutex. `EventRaces.World` therefore also holds where `Poll` and a call of `Unsubscribe` are, with the
channel each has in hand, and a step is what runs between two points where another goroutine can get in: picking a
filter, sending to the channel picked, aiming at a general channel and sending to it, looking a topic up, closing what
was looked up, and the steps of users. A range over a map visits what stays in it once, and may or may not visit what
comes in meanwhile.

## Model

| member | source | states |
|---|---|---|
| FlowControl.QuotaSafety | mqtt/client.go:651-676 | Section 4.9 of MQTT 5.0 over every run of non-overlapping `Publish` calls and a poller against a server that acknowledges only what is outstanding: QoS > 0 publishes sent and unfinished never exceed the server's receive maximum by more than the number of failing PUBRECs (so never without one); `sendQuota` plus unfinished publishes is at most the maximum plus the one pending decrement plus the failing PUBRECs; a call about to send, also after a semaphore wake-up, finds quota left; the quota stays within the maximum, so no decrement wraps |
| QuotaExact.QuotaPromise | mqtt/client.go:658-676 | The same promise for overlapping calls, for every receive maximum: all runs with at most n calls of `Publish` in progress against a conforming server without failing PUBRECs keep the unfinished publishes and `sendQuota` within the receive maximum if and only if n <= 1, or the maximum is 0 |
| QuotaExact.RefusalBound | mqtt/client.go:970-1000 | With failing PUBRECs, for every receive maximum >= 1 and every k: serial conforming runs with k of them keep the unfinished publishes within a bound if and only if the bound is at least the maximum plus k; so the excess in `QuotaSafety` is exact |
| QuotaExact.QuotaPromiseStored | mqtt/client.go:633-676 | `QuotaPromise` for clients with a storage that never use identifier 0 and servers that bring fresh ones: it is kept for n calls at a time if and only if n <= 1, or the maximum is 0, or it is 65535, when the identifiers run out together with the quota |
| QuotaExact.RefusalBoundStored | mqtt/client.go:633-676 | `RefusalBound` for such clients: the bound has to be at least the maximum plus k, or 65535, the number of identifiers there are, if that is less |
| FlowControl.QuotaAlong | mqtt/client.go:940-952 | The invariant behind it, kept by every step: `OneCall` (connMutex is held exactly while the one call prepares and sends) and the quota inequality with its program-counter term, for the credits of PUBACK, PUBCOMP and failing PUBREC |
| FlowControl.CallStep | mqtt/client.go:613-679 | Every step of a `Publish` call — lock, persist, test, wait, resume, send, decrement — keeps both invariants |
| FlowControl.AckStep | mqtt/client.go:1046-1058 | A PUBACK or PUBCOMP, with or without waking a blocked call, keeps both invariants |
| FlowControl.PubrecStep | mqtt/client.go:970-1000 | A PUBREC keeps both invariants; one with a code above 0x80 uses up one unit of the excess, because the exchange it ends is credited again by PUBCOMP |
| FlowControl.MaximaFixed | mqtt/client.go:282-297 | No step changes the two receive maxima agreed on in `Connect` |
| FlowStorage.StoreAlong | mqtt/client.go:633-649 | Every step, of any number of publishers and of the poller, keeps the storage exact while inbound QoS > 0 publishes come with fresh identifiers |
| FlowStorage.StorageExact | mqtt/client.go:920-989 | From any storage with distinct identifiers, over every run of any number of publishers against a conforming server: the storage holds all along exactly one entry, under distinct identifiers, for each unfinished exchange (a Publish until PUBACK or PUBREC, a Pubrec from then until PUBCOMP), each packet being prepared, each inbound QoS 2 publish until PUBREL and each packet left over for good, if and only if inbound QoS > 0 publishes that `Poll` accepts come with identifiers not in the storage |
| FlowStorage.StorageFaithful | mqtt/client.go:954-989 | Then no storage operation of `Poll` fails, `Get` finds the entry of everything alive, and no two of them share an identifier |
| FlowStorage.PublishStores | mqtt/client.go:920-931 | One inbound publish keeps the storage exact if and only if its identifier is fresh or `Poll` turns it down, since the error of `Store` is ignored |
| FlowStorage.StorageBounded | mqtt/client.go:1060-1065 | With non-overlapping calls the storage never holds more than the server's receive maximum plus one packet, plus one per failing PUBREC, plus unreleased inbound publishes and leftovers |
| FlowRuns.ReceiveConservation | mqtt/client.go:882-909 | Over every run with any number of publishers and any storage against a conforming server, until `Poll` returns an error: `receiveQuota`, the QoS 2 publishes awaiting PUBREL and the publishes no acknowledgement follows add up to `clientReceiveMaximum` all along, so that the quota never wraps, if and only if QoS 0 publishes come in only while there is quota |
| FlowRuns.ReceiveBalance | mqtt/client.go:285-295 | Then quota plus unreleased QoS 2 publishes make up the maximum if and only if only QoS 1 and 2 publishes have come in, and the unreleased ones never exceed it |
| FlowRuns.RefusedAtZero | mqtt/client.go:882-909 | The next publish with QoS bits 1 to 3 is refused with the quota unchanged if and only if the credits are used up; otherwise it takes a credit, which QoS 1 gives back; a missing identifier is an error for QoS 1 and 2, with the credit gone |
| FlowRuns.ReceiveStep | mqtt/client.go:1012-1036 | A step keeps the balance if and only if it is not a QoS 0 publish at quota 0 |
| FlowRuns.SendConservation | mqtt/client.go:940-952 | The send-side counterpart, over every run of non-overlapping calls without failing PUBREC: `sendQuota` and the unfinished publishes add up to the server's receive maximum plus the pending decrement all along if and only if every PUBACK and PUBCOMP finds `sendQuota` below the maximum |
| FlowRuns.SendStep | mqtt/client.go:1046-1058 | A step of such a run keeps that balance if and only if it is not an acknowledgement that finds the quota at the maximum |
| FlowRuns.CreditLoss | mqtt/client.go:671-676 | Over every such run at most one credit is ever lost: the balance is the maximum or one less |
| QuotaExact.CreditLeaks | mqtt/client.go:671-676 | For every receive maximum >= 1 a serial conforming run that loses it: a PUBACK comes between the write and the decrement of the publish it acknowledges |
| QuotaExact.StarvedForever | mqtt/client.go:658-676 | With a receive maximum of 1 that was the last credit: whatever any number of calls and a conforming server do from then on, no QoS > 0 packet is ever sent again |
| QuotaExact.QoS0Wraps | mqtt/client.go:894-897 | For every receive maximum a run in which QoS 2 publishes use up the quota and the QoS 0 publish behind them takes it to 65535 |
| QuotaExact.OverlapBreaks | mqtt/client.go:658-676 | For every receive maximum >= 1 a conforming run without failing PUBREC, with distinct non-zero packet identifiers, in which two overlapping calls leave one publish too many and `sendQuota` at 65535; without storage, and with one for every maximum below 65535 |
| QuotaExact.RefusalBreaks | mqtt/client.go:970-1000 | For every receive maximum >= 1 and every k a serial conforming run with k failing PUBRECs that leaves k publishes too many; without storage, and with one as long as there are that many identifiers |
| Exchanges.AckExact | mqtt/client.go:940-959 | From any state: a PUBACK or PUBCOMP below the maximum gives one credit and, if a call is blocked on the semaphore, takes exactly one off it, with its packet; at the maximum it does neither; it is an error exactly if a storage lacks the identifier |
| Exchanges.MayWake | mqtt/client.go:945-951 | Any blocked call may be the one, and one has to be |
| Exchanges.WokenSends | mqtt/client.go:658-669 | A PUBACK or PUBCOMP that wakes a call, its resumption and its send are possible one after the other from any state, and what the server then has to answer is the woken call's own packet |
| Exchanges.HeldBackExactly | mqtt/client.go:945-951 | Over every run of non-overlapping calls against a conforming server: nobody is held back while there is quota if and only if no PUBACK or PUBCOMP comes between a call's unlocking connMutex and its blocking on the semaphore, and no failing PUBREC while a call is held back |
| Exchanges.MissedWakeUp | mqtt/client.go:658-662 | A conforming run with receive maximum 1 that ends with a call blocked at full quota and nothing outstanding |
| Exchanges.StuckForever | mqtt/client.go:658-662 | From there that call never goes on, whatever the server sends, unless another call is made |
| Exchanges.QoS0Passes | mqtt/client.go:651-669 | A QoS 0 packet goes out at any quota, also 0, and leaves everything as it was |
| Exchanges.Delayed | mqtt/client.go:651-662 | A QoS > 0 packet at quota 0 is persisted and waits on the semaphore with connMutex free; nothing is sent |
| Exchanges.DuplicateRefused | mqtt/client.go:641-647 | A stored identifier ends the call and changes nothing |
| Exchanges.FailedWrite | mqtt/client.go:665-667 | A failing write ends the call with the quota untouched and the packet left in the storage |
| Exchanges.QoS1Exchange | mqtt/client.go:934-959 | From any state that allows a publish: sending, decrement and PUBACK leave the whole state as it was (section 4.3.2 of MQTT 5.0) |
| Exchanges.QoS2Exchange | mqtt/client.go:963-1067 | Sending, decrement, PUBREC and PUBCOMP leave the whole state as it was for every reason code up to 0x80; for every one above, the quota is one more, up to the maximum (section 4.3.3) |
| Exchanges.PubrecExact | mqtt/client.go:970-1000 | What a PUBREC with any of the 256 reason codes makes of the publish it answers: the credit, the storage and whether the exchange goes on |
| Exchanges.PubrecUnknown | mqtt/client.go:979-983 | A PUBREC for an identifier not stored is an error, its credit given by then |
| Exchanges.QoS2Received | mqtt/client.go:905-1036 | An inbound QoS 2 PUBLISH and its PUBREL leave the whole state as it was |
| Exchanges.PublishReceived | mqtt/client.go:882-931 | What an inbound PUBLISH of each of the four QoS values takes and keeps |
| Exchanges.PublishRefused | mqtt/client.go:883-909 | Which inbound PUBLISH is an error: one with QoS > 0 without a credit, with nothing changed, and one of QoS 1 or 2 without identifier, with the credit gone; no other |
| Exchanges.PubrelExact | mqtt/client.go:1012-1036 | A PUBREL drops its entry and gives one credit below the maximum; without the entry it is an error that changes nothing else |
| Clients.Client.Connect | mqtt/client.go:282-297 | Quotas and maxima become those of a fresh connection; a CONNECT receive maximum of 0 takes the server's |
| Clients.Client.PublishEnter | mqtt/client.go:620-639 | Takes connMutex; a QoS > 0 packet without identifier gets the low 16 bits of the random number |
| Clients.Client.PublishPersist | mqtt/client.go:633-649 | Stores the packet, or on a duplicate identifier releases connMutex and gives up, leaving the storage alone; one machine step |
| Clients.Client.PublishTest | mqtt/client.go:658-662 | Exactly a QoS > 0 packet at quota 0 is delayed and connMutex released; one machine step |
| Clients.Client.PublishSend | mqtt/client.go:665-669 | The packet is out, connMutex is released, a QoS > 0 call still has to decrement; one machine step |
| Clients.Client.PublishFail | mqtt/client.go:665-667 | The write fails: connMutex is released, the call ends without a decrement, and its packet stays in the storage; one machine step |
| Clients.Client.PublishSettle | mqtt/client.go:671-676 | The delayed decrement, with 16-bit wrap-around; one machine step |
| Clients.Client.HandlePuback | mqtt/client.go:934-959 | One machine step on fields and storage: credit below the maximum, wake-up, drop; a failing drop is an error |
| Clients.Client.HandlePubrec | mqtt/client.go:963-1002 | One machine step: credit for codes above 0x80 only, drop the publish, store the PUBREC, send PUBREL also for a failing code; a failing drop or store is an error |
| Clients.Client.HandlePubcomp | mqtt/client.go:1039-1067 | One machine step, as for PUBACK |
| Clients.Client.HandlePublish | mqtt/client.go:882-931 | One machine step, for all four values of the QoS bits: the quota test, the decrement (for QoS 0 too), PUBACK with its increment or PUBREC, the refusal of identifier 0, and a PUBREC stored whose error is ignored; QoS bits 3 take a credit and are stored but never acknowledged |
| Clients.Client.HandlePubrel | mqtt/client.go:1005-1036 | One machine step: drop, PUBCOMP, one credit below the maximum; a failing drop is an error |
| MemoryStorage.Storage.Store | mqtt/storage/memory/memory.go:51-72 | A present identifier is refused and changes nothing, otherwise the entry goes to the end |
| MemoryStorage.Storage.Get | mqtt/storage/memory/memory.go:75-87 | The first entry with the identifier, or the error |
| MemoryStorage.Storage.Drop | mqtt/storage/memory/memory.go:90-104 | Shifts the first entry with the identifier out of the slice, or reports its absence and changes nothing |
| MemoryStorage.RunRefines | mqtt/storage/memory/memory.go:51-104 | Over any run of operations from the empty storage: identifiers stay distinct, the slice is a map with its insertion order, `Get` agrees with the map |
| MemoryStorage.ExecRefines | mqtt/storage/memory/memory.go:51-104 | One Store or Drop does to map and insertion order what its name says; a failing one changes nothing |
| MemoryStorage.GetIsLookup | mqtt/storage/memory/memory.go:75-87 | With distinct identifiers `Get` is map lookup |
| MemoryStorage.DropIsRemoval | mqtt/storage/memory/memory.go:90-104 | `Drop` removes one key and keeps the order of the others |
| MemoryStorage.DropRemoves | mqtt/storage/memory/memory.go:90-104 | Dropping a stored entry by identifier removes exactly it |
| TopicMatch.MatchTopic | mqtt/client.go:1123-1184 | The two-cursor loop terminates and computes `MatchOutcome`: a match, no match, or an access past the end of the topic |
| TopicMatch.Completeness | mqtt/client.go:1123-1184 | For a valid filter that matches level by level (section 4.7.1 of MQTT 5.0, `#` standing for levels after a present slash) the answer is "match" if and only if the filter, without a final wildcard, is no longer than the topic; otherwise it is "no match"; never an out-of-range access. `LevelMatch` is the reference definition |
| TopicMatch.Soundness | mqtt/client.go:1127-1183 | A "match" is right — the filter is valid and matches level by level — if and only if the topic has at least as many levels and, for filters without `#`, its length is the filter's plus what the levels under `+` exceed one byte; and when the filter has one level more than the topic, a final `#`, it is right by the parent rule |
| TopicMatch.OutOfRange | mqtt/client.go:1166-1171 | For a valid filter the index runs past the topic if and only if the topic runs out at literal bytes of the filter and the levels under `+` were in sum longer than one byte each |
| TopicMatch.Agreement | mqtt/client.go:1123-1184 | For every valid filter and every topic: the answer is that of section 4.7.1, without panic, except in exactly five cases stated on the levels: one panic, two misses, two wrong matches |
| TopicMatch.MatchedExactly | mqtt/client.go:1123-1184 | For every valid filter and every topic, the three cases in which the answer is "match" |
| TopicMatch.PoliteAgreement | mqtt/client.go:1123-1184 | When no topic level under a `+` is empty, the three cases that remain |
| TopicMatch.InvalidFilter | mqtt/client.go:1127-1156 | An invalid filter is given up at its first misplaced wildcard: it indexes past the topic if and only if the valid filter cut off in front of that wildcard does, and is a "match" only if that one is |
| TopicMatch.LiteralFilter | mqtt/client.go:1166-1183 | Without wildcards it is string equality, for all topics, never a panic |
| TopicMatch.PrefixFilter | mqtt/client.go:1127-1143 | On a literal prefix ending in a slash followed by `#` it is "starts with the prefix", for all topics |
| TopicMatch.FitsIsLevelMatch | mqtt/client.go:1123-1184 | The byte-wise reading of a valid filter is the level-by-level definition |
| TopicMatch.WrongMatchOfEqualLength | mqtt/client.go:1178-1183 | `+` is said to match `/` |
| TopicMatch.MissedEmptyLevel | mqtt/client.go:1166-1168 | `+/a` is said not to match `/a` |
| TopicMatch.WrongMatchAtLastPlus | mqtt/client.go:1158-1161 | `+/b` is said to match `a` |
| TopicMatch.MissedParent | mqtt/client.go:1166-1168 | `a/#` is said not to match its parent level `a` |
| TopicMatch.PanicAfterLongLevel | mqtt/client.go:1169-1171 | `+/b/a` against `aa/b` indexes past the topic |
| Events.RegistryInvariant | mqtt/client.go:114-166 | Over any sequence of creating, binding, closing, unsubscribing, signalling, routing and consuming, until one panics: registered channels are open, the two maps share no id, no channel serves two filters, ids are below the counter, every queue is first-in-first-out and within capacity |
| Events.PanicsExactly | mqtt/client.go:151-166 | What can panic in a valid registry when operations run one after the other, if and only if: closing a nil or closed channel, unsubscribing a filter bound to nil, and the matcher; interleaved goroutines are in `EventRaces` |
| Events.PoliteRunsOn | mqtt/client.go:509-527 | If every bound channel is still in `eventChans`, every user-closed one still open and no filter makes the matcher panic, a run of whole operations never panics and no filter is left bound to nil; `EventRaces.PoliteInterleaving` says what interleaving adds |
| Events.RoutingExact | mqtt/client.go:911-933 | Routing a PUBLISH undisturbed, which by `EventDelivery.RoutingRefines` is what the steps of `Poll` do when nothing comes between them, gives the same result for every order in which Go ranges over the map: a panic if and only if the matcher panics on some filter, otherwise each channel is offered the event as often as it is entitled to |
| Events.ListenersOnce | mqtt/client.go:911-933 | Undisturbed, if no filter bound to nil matches, every general channel and every channel bound to a matching filter is offered the event once, and no other channel changes |
| Events.NilMatchRepeats | mqtt/client.go:170-203 | A general channel with room hears a publish exactly once if and only if no filter bound to nil matches |
| Events.PoliteDelivery | mqtt/client.go:170-207 | After any polite run, when nothing comes between the steps of the routing: each listening channel gets the event at the end of its queue unless the queue is full; no other queue changes; with consumers in between it is `EventDelivery.DeliveryExact` |
| Events.RunKeeps | mqtt/client.go:142-166 | Over any further run what a channel has accepted and delivered stays, in order, and nothing is signalled on a closed channel, as `CloseEventChannel` promises |
| Events.UnsubscribeCloses | mqtt/client.go:541-602 | `Unsubscribe` closes the channels bound to the topics, as it promises, and leaves other filters alone unless their channel was closed with them |
| Events.BoundTwice | mqtt/client.go:509-524 | Binding one channel to two filters leaves the second bound to nil: unsubscribing it panics, and a publish for it reaches the other general channels more than once |
| Events.StepValid | mqtt/client.go:509-527 | Each operation that returns keeps the registry invariant |
| EventRaces.PoliteInterleaving | mqtt/client.go:911-918 | Over every interleaving of polite users, `Poll` and `Unsubscribe`: the channel a goroutine has in hand between picking it and sending to or closing it stays open all along if and only if nothing is closed while another goroutine has it in hand; then nothing ever panics, so no channel is closed twice and none is sent to when closed |
| EventRaces.PanicDue | mqtt/client.go:170-207 | At every point of such an interleaving some next step panics if and only if a channel in hand has been closed, whoever closed it |
| EventRaces.HeldSendCrashes | mqtt/client.go:911-918 | `Poll` picks the channel of a matching filter, any steps of others come between, and it sends: the send panics if and only if one of those steps closed that channel, in `CloseEventChannel` or in `Unsubscribe` |
| EventRaces.AimedSendCrashes | mqtt/client.go:189-203 | The same for a general channel in the fan-out, which only `Unsubscribe` can close meanwhile |
| EventRaces.HeldCloseCrashes | mqtt/client.go:592-602 | `Unsubscribe` looks a topic up, any steps of others come between, and it closes the channel: that panics if and only if the topic was bound to nil or one of those steps closed the channel |
| EventRaces.CrashesExactly | mqtt/client.go:151-166 | Which step of any interleaving panics: closing a nil or closed channel, sending on a closed one, and the matcher |
| EventRaces.ClosedExactly | mqtt/client.go:144-166 | Over every interleaving a channel is closed if and only if it was before or some step closed it |
| EventRaces.SaneAlong | mqtt/client.go:114-166 | Over every interleaving the registry invariant holds at every point |
| EventRaces.SendAfterClose | mqtt/client.go:911-918 | A polite run that panics: the user closes the channel between the match and the send |
| EventRaces.ClosedTwice | mqtt/client.go:592-602 | A polite run that panics: the user closes the channel between lookup and close in `Unsubscribe` |
| EventRaces.SendAfterUnsubscribe | mqtt/client.go:189-203 | A polite run that panics in the fan-out: a general channel is bound and unsubscribed before the send |
| EventDelivery.RoutingRefines | mqtt/client.go:911-933 | The steps of `Poll` for one PUBLISH with nothing between them, from any reachable registry and in whatever order they pick filters and channels, end in the registry of `Published` or panic when it does |
| EventDelivery.DeliveryExact | mqtt/client.go:170-207 | With consumers (and lookups of `Unsubscribe`) coming in at any point of the routing: every channel is sent the event as often as it is entitled to, once if it listens and no nil binding matches, and accepts a copy for each time it has room |
| EventDelivery.SendsAlong | mqtt/client.go:911-933 | The invariant behind it: at every point the sends to a channel that are done and the one still owed make up what the filters handled so far entitle it to |
| EventDelivery.RoutingEnds | mqtt/client.go:911-933 | However far it has got, a routing by `Poll` alone can be taken to its end, where it has panicked if the matcher does on some filter and is over otherwise |
| EventDelivery.UnsubscribeRefines | mqtt/client.go:592-602 | The steps of `Unsubscribe` for any list of topics with nothing between them end in the registry of `UnsubscribedAll` or panic when it does |
| EventDelivery.UnsubscribeEnds | mqtt/client.go:592-602 | And they get to that end unless it panics |
| EventDelivery.RoutingCrashes | mqtt/client.go:911-933 | Such a routing panics only where the matcher does |
| Events.EventRegistry.CreateEventChannel | mqtt/client.go:114-141 | An open empty channel of at least one place under the next id, in `eventChans` |
| Events.EventRegistry.CloseEventChannel | mqtt/client.go:144-166 | Closes the channel and takes it out of both maps, whatever the order of the map loop; nil or closed panics and changes nothing |
| Events.EventRegistry.BindTopics | mqtt/client.go:509-529 | Binds the topics in front of the first failing reason code and reports that code; more success codes than topics panic, with all topics bound. What is bound is stated without the loop: for each filter the last of its topics that names a channel decides, and binds that channel if it was a general one not named before, else Go's zero value; channels named stop being general ones, nothing else changes. The result is that of the run of `Bind` actions, so that the theorems over runs apply |
| Events.BindsExactly | mqtt/client.go:517-523 | The same for every run of `Bind` actions, with repeated filters, repeated and unknown channels and id 0 |
| Events.BindsEach | mqtt/client.go:517-523 | Different filters bound to different general channels get the channel each was given |
| Events.GeneralUntil | mqtt/client.go:150-166 | Over every run a general channel stays one if and only if no step closes it or binds it |
| Events.BoundUntil | mqtt/client.go:150-166 | Over every run a channel stays bound to its filter if and only if no step closes it, unsubscribes the filter or binds the filter anew |
| Events.ConsumesInOrder | mqtt/client.go:170-207 | A consumer gets the queued events, first things first |
| Events.NewChannelHolds | mqtt/client.go:114-141 | A new channel holds as many events as it was asked for, and at least one, before it misses any |
| Events.ChannelIds | mqtt/client.go:114-141 | Channels are numbered from 1 in the order they are made, and are general ones |
| Events.UnsubscribedIsRun | mqtt/client.go:592-602 | Unsubscribing several topics is the run of the `Unbind` actions |
| Events.EventRegistry.Unsubscribe | mqtt/client.go:592-602 | Closes the channel of each topic that has one, in order; a panic leaves the maps as the topics in front of it have |
| Events.EventRegistry.Signal | mqtt/client.go:170-207 | One channel, or for nil all general ones in any order, are offered the event without blocking; it panics, changing nothing, if and only if the one channel, picked before, has been closed meanwhile |
| Events.EventRegistry.Route | mqtt/client.go:911-933 | When nothing comes between its steps: the loop over `topicChans` in an arbitrary order, then the general channels; panics if and only if the matcher does |
| Primitives.ReadVarValue | mqtt/packets/primitives/varint.go:89-114 | For arbitrary input, whatever follows on the connection: a value read is at most 268435455; unless 613566757 bytes or more were consumed, the bytes consumed satisfy `Accepts` and the value is the sum of (byte mod 128) * 128^i over the first four of them; when nothing is read, no prefix below that length satisfies `Accepts` |
| Primitives.VarRoundTrip | mqtt/packets/primitives/varint.go:55-114 | An encodable value followed by any bytes is read back and consumes exactly its encoding |
| Primitives.VarPrefixFree | mqtt/packets/primitives/varint.go:55-74 | No encoding is a proper prefix of another |
| Primitives.VarShortest | mqtt/packets/primitives/varint.go:55-114 | No accepted input for a value is shorter than what the writer produces (section 1.5.5 of MQTT 5.0) |
| Primitives.EncVarLength | mqtt/packets/primitives/varint.go:34-74 | `Length(false)` is the length of what `WriteTo` emits; a value out of bounds has length 0 and is written as five bytes |
| Primitives.WriteVar | mqtt/packets/primitives/varint.go:55-74 | The loop appends the base-128 digits with continuation bits |
| Primitives.ReadVarInt | mqtt/packets/primitives/varint.go:89-114 | The loop sets the value, consumes the bytes and counts them, or reports end of input or a malformed integer |
| Primitives.StrRoundTrip | mqtt/packets/primitives/string.go:34-85 | A string of at most 65535 bytes reads back, whatever follows |
| Primitives.StrLengthExact | mqtt/packets/primitives/string.go:87-93 | `Length` is the number of bytes written, modulo 2^32, with and without identifier |
| Primitives.WriteStr | mqtt/packets/primitives/string.go:34-49 | The low 16 bits of the length, then all bytes |
| Primitives.WriteStrAsProperty | mqtt/packets/primitives/string.go:51-62 | The identifier, then the string |
| Primitives.ReadString | mqtt/packets/primitives/string.go:64-85 | The announced bytes, or an error |
| Primitives.WriteVarAsProperty | mqtt/packets/primitives/varint.go:76-87 | The identifier, then the integer |
| Primitives.U16RoundTrip | mqtt/packets/primitives/uint16.go:34-58 | Two-byte integers read back |
| Primitives.U32RoundTrip | mqtt/packets/primitives/uint32.go:34-58 | Four-byte integers read back |
| Frames.FixedHeader.SetType | mqtt/packets/packet.go:101-108 | Replaces the type and keeps the flags |
| Frames.FixedHeader.SetFlags | mqtt/packets/packet.go:110-117 | Replaces the flags and keeps the type |
| Frames.FixedHeader.WriteTo | mqtt/packets/packet.go:119-133 | First byte, then the remaining length |
| Frames.FixedHeader.ReadFrom | mqtt/packets/packet.go:135-148 | Both fields, or the error of the first that fails |
| Frames.HeadRoundTrip | mqtt/packets/packet.go:119-148 | The fixed header of a frame within bounds reads back and announces exactly the bytes of its body |
| Frames.RemainingExact | mqtt/packets/publish.go:215-265 | The Remaining the writers compute in 32 bits equals the bytes emitted after the fixed header if and only if these are fewer than 2^32, the property block is at most 268435455 bytes and every subscription identifier has an encoding; for PUBLISH, the acknowledgements, SUBSCRIBE and UNSUBSCRIBE, with any number of topics and user properties |
| Octets.PropertyOctets | mqtt/packets/publish.go:268-356 | Identifiers, byte order and length prefixes of all properties as Table 2-4 of MQTT 5.0 has them, byte by byte |
| Octets.PublishFirstByte | mqtt/packets/publish.go:250-262 | Type, DUP, QoS and RETAIN at the bits section 3.3.1 gives them |
| Octets.PublishOctets | mqtt/packets/publish.go:200-362 | A PUBLISH within bounds on the wire: first byte, length, topic, identifier for QoS > 0, property length, properties, payload |
| Octets.AckOctets | mqtt/packets/puback.go:49-231 | An acknowledgement within bounds on the wire, with type and flags of sections 3.4 to 3.7; the reason code is left out only if it is 0 and there are no properties |
| Octets.RequestOctets | mqtt/packets/subscribe.go:44-143 | SUBSCRIBE and UNSUBSCRIBE on the wire, with their first bytes 0x82 and 0xA2 |
| Properties.PropertiesLengthExact | mqtt/packets/puback.go:148-157 | The property length the writers add up is the number of property bytes, less the unencodable subscription identifiers, modulo 2^32 |
| Properties.LengthIsOrderFree | mqtt/packets/publish.go:238-240 | The user properties have the same length in whatever order the map is ranged over, so the length loop and the writing loop may disagree on the order |
| Properties.BlockRoundTrip | mqtt/packets/publish.go:130-183 | The property loop reads back any list of known properties, in order, and stops exactly behind it |
| UnknownProperties.UnknownBlock | mqtt/packets/publish.go:138-182 | The property loop on known properties, an unknown identifier and any rest of the block none of whose bytes it takes for identifiers is a known one: how many bytes it skips, where it stops, and by how much it has counted too many; the stale count is that of the last known value, or of the length field |
| UnknownProperties.UnknownPublish | mqtt/packets/publish.go:138-195 | What PUBLISH then makes of the rest: the bytes that become the payload, and as many bytes as were counted too many stay on the connection |
| UnknownProperties.UnknownWhole | mqtt/packets/publish.go:138-195 | Such a PUBLISH is read back whole if and only if there is neither a value nor a payload |
| UnknownProperties.FormatIndicator | mqtt/packets/publish.go:138-195 | PUBLISH with a Payload Format Indicator, the one property of section 3.3.2.3 of MQTT 5.0 the client does not know, anywhere among known ones: the properties read, the payload and the bytes that stay on the connection |
| UnknownProperties.FormatIndicatorWhole | mqtt/packets/publish.go:138-195 | It is read back whole if and only if it has no payload and the last property, behind the indicator, is longer than twice the stale count |
| UnknownProperties.PayloadLost | mqtt/packets/publish.go:186-195 | Whatever follows an unknown identifier: if any payload is read, at least as many bytes as the stale count stay on the connection |
| UnknownProperties.IndicatorInPayload | mqtt/packets/publish.go:140-195 | Topic `a`, an indicator and the payload `hi`: the payload read is the byte 1 and `h`, and `i` stays |
| UnknownProperties.UnknownAck | mqtt/packets/puback.go:108-139 | An acknowledgement with an unknown property leaves the rest of its block on the connection |
| UnknownProperties.UnknownSuback | mqtt/packets/suback.go:69-123 | A SUBACK with one takes value bytes for reason codes, or is malformed, and leaves as many bytes as were counted too many on the connection |
| Properties.AddUserProperties | mqtt/packets/puback.go:155-157 | The length loop over the map, in an arbitrary order, adds what the user properties take in every order |
| Properties.WriteUserProperties | mqtt/packets/puback.go:212-227 | The writing loop over the map, in an arbitrary order |
| Publish.PublishRoundTrip | mqtt/packets/publish.go:89-362 | Reading what `WriteTo` emits, header first, restores retain, QoS, duplicate, topic, identifier (for QoS > 0), every property and the payload, for every order of the user properties and whatever follows |
| Publish.ServerRoundTrip | mqtt/packets/publish.go:89-198 | The same for a PUBLISH as any server may lay it out: known properties in any order and number |
| Publish.OwnHeaderRoundTrip | mqtt/packets/publish.go:93-99 | When the reader reads the header itself, the packet is restored if and only if it has neither properties nor payload, or these together are longer than the header and the header takes two bytes or there is no payload |
| Publish.OwnHeaderLosesPayload | mqtt/packets/publish.go:187-195 | A packet with a one-byte payload loses it that way |
| Publish.FlagsRoundTrip | mqtt/packets/publish.go:101-104 | The flags read back into retain, QoS and duplicate |
| Publish.Publish.WriteTo | mqtt/packets/publish.go:200-362 | Emits exactly the frame of its fields and leaves type, flags and Remaining in the header; without topic and alias it fails and changes nothing |
| Publish.Publish.ReadFrom | mqtt/packets/publish.go:89-198 | Sets the fields and consumes the bytes `ReadPublish` says, on any input, or reports the error; what that is for a server's packets say `Publish.ServerRoundTrip`, `UnknownProperties.UnknownPublish` and `UnknownProperties.FormatIndicator` |
| Publish.Publish.ReadPropertyLoop | mqtt/packets/publish.go:130-183 | The property loop terminates on every input and is `ReadBlock`, including the stale count added for an unknown identifier |
| Publish.Publish.ComputePropertiesLength | mqtt/packets/publish.go:222-248 | The accumulated length is the property length of the packet for every order in which the user properties may be written |
| Acks.AckRoundTrip | mqtt/packets/puback.go:80-231 | Reading what `WriteTo` emits restores identifier, reason code, reason string and user properties for all four kinds, including the three-byte body whose zero property length is read as reason code 0 |
| Acks.IdentifierOnly | mqtt/packets/puback.go:80-89 | A body of two bytes: the identifier, and reason code 0 |
| Acks.WithoutProperties | mqtt/packets/puback.go:91-98 | A body of three bytes: identifier and any reason code, no properties |
| Acks.ServerAck | mqtt/packets/puback.go:80-142 | The full form with any reason code and known properties in any order and number |
| Acks.AckFirstByte | mqtt/packets/puback.go:49-76 | Each kind leaves its own type in a fresh header, and only PUBREL flags |
| Acks.Ack.WriteTo | mqtt/packets/puback.go:49-76 | The wrappers override the type (PUBREL the flags) and emit the frame of the fields |
| Acks.Ack.WriteBase | mqtt/packets/puback.go:144-231 | `Puback.WriteTo` on a header of any type: the frame is emitted and Remaining is left in the header |
| Acks.Ack.ComputePropertiesLength | mqtt/packets/puback.go:148-157 | The accumulated length is the property length of the packet for every order of the user properties |
| Acks.Ack.ReadFrom | mqtt/packets/puback.go:80-142 | Sets the fields and consumes the bytes `ReadAck` says, on any input, or reports the error |
| Subscriptions.Subscribe.WriteTo | mqtt/packets/subscribe.go:44-143 | Emits exactly the frame of its fields; without topics it fails and writes nothing |
| Subscriptions.Subscribe.ComputePropertiesLength | mqtt/packets/subscribe.go:55-64 | The accumulated length is the property length of the packet for every order of the user properties |
| Subscriptions.TopicsLength | mqtt/packets/subscribe.go:66-69 | The accumulated payload length is the number of payload bytes, modulo 2^32, with or without options bytes |
| Subscriptions.Unsubscribe.WriteTo | mqtt/packets/unsubscribe.go:42-123 | Emits exactly the frame of its fields; without topics it fails and writes nothing |
| Requests.SubscribeReadBack | mqtt/packets/subscribe.go:44-143 | A reader written from section 3.8 of MQTT 5.0, which refuses foreign properties and empty payloads, recovers identifier, properties and every filter with its options, in order, whatever follows |
| Requests.UnsubscribeReadBack | mqtt/packets/unsubscribe.go:42-123 | A reader written from section 3.10, which refuses foreign properties and empty payloads, recovers identifier, user properties and every filter, in order; options of a topic are not written |
| Requests.WishesExact | mqtt/packets/subscribe.go:106-131 | What a server takes over from these properties is the subscription identifier, 0 if there is none, and the map of user properties, for every order |
| Subscriptions.SubackSplit | mqtt/packets/suback.go:45-126 | With a well-formed block of known properties and at least one code, exactly Remaining bytes are consumed and the reason codes are exactly the bytes behind the properties |
| Subscriptions.SubackWithoutCodes | mqtt/packets/suback.go:65-107 | A SUBACK without codes is malformed, unless its property block is empty too: then it is accepted with no code |
| Subscriptions.SubackIdentifierOnly | mqtt/packets/suback.go:45-58 | One of nothing but the identifier is accepted |
| Subscriptions.SubackRoundTrip | mqtt/packets/suback.go:45-126 | A SUBACK with reason string and user properties in any order, laid out as section 3.9 of MQTT 5.0 has it, is read back whole |
| Subscriptions.Suback.ReadFrom | mqtt/packets/suback.go:45-126 | Sets the fields and consumes the bytes `ReadSuback` says, on any input, or reports the error |
| Subscriptions.Suback.ReadProperties | mqtt/packets/suback.go:69-102 | The property loop terminates on every input, `remaining` being its measure |
| PacketStream.ReceivePacket | mqtt/client.go:855-938 | Header first, then the reader its type selects; an unknown type is an error |
| PacketStream.PacketRoundTrip | mqtt/client.go:855-1112 | A PUBLISH as the client or any server writes it, an acknowledgement of any kind in its full or one of its short forms, a SUBACK and a PINGRESP are recognised by their header and read back whole; what follows is untouched |
| PacketStream.SubackReadBack | mqtt/client.go:1070-1079 | A SUBACK with reason string and user properties in any order reaches `Poll` whole |
| PacketStream.RefusedTypes | mqtt/client.go:1113-1115 | An unexpected packet type is reported if and only if the type is 0, 1, 2, 8, 10 or 12, whatever the body |
| PacketStream.StreamRoundTrip | mqtt/client.go:855-1112 | Receiving over the concatenated bytes of any list of such packets yields exactly that list and leaves no byte |
| PacketStream.Truncated | mqtt/client.go:855-1112 | A packet of which only a part has arrived is never taken for another one: reading any proper prefix reports the end of the input |
| PacketStream.TruncatedStream | mqtt/client.go:855-1112 | The same for a stream cut off inside a packet |
| PacketStream.StreamInjective | mqtt/client.go:855-878 | Two such lists with the same encoding are the same list to a receiver |

## Left out

- FlowControl.QuotaSafety: assumes calls of `Publish` that do not overlap and counts failing PUBRECs; without that it is false, as `QuotaExact.QuotaPromise` and `QuotaExact.RefusalBound` say for every receive maximum.
- FlowStorage.StorageExact: treats what the storage holds at `Connect` as left over; that a server resumes those exchanges is not modelled.
- FlowStorage.StorageFaithful: assumes that accepted inbound publishes bring identifiers not in the storage; without that the storage is not exact, as `FlowStorage.StorageExact` says.
- FlowStorage.StoreAlong: assumes it too, as the step lemma behind it.
- FlowControl.QuotaAlong: assumes calls that do not overlap, as the invariant behind `QuotaSafety`.
- FlowControl.CallStep: assumes it too.
- FlowRuns.SendConservation: is about runs without failing PUBREC, whose double credit `QuotaExact.RefusalBound` and `Exchanges.QoS2Exchange` cover, and calls that do not overlap.
- Exchanges.HeldBackExactly: is about calls that do not overlap; with several, a call may rightly wait while the credit belongs to another that has been woken.
- Exchanges.StuckForever: is about a client that makes no other call.
- Clients.Client.HandlePubrec: the error of a failed PUBREL write, which ends `Poll`, is not modelled.
- Clients.Client.HandlePublish: the error of a failed PUBACK or PUBREC write, which ends `Poll`, is not modelled.
- Clients.Client.HandlePubrel: the error of a failed PUBCOMP write, which ends `Poll`, is not modelled.
- FlowStorage.StorageBounded: assumes calls that do not overlap, since the bound rests on the send quota.
- FlowRuns.RefusedAtZero: assumes that QoS 0 publishes have come in only while there was quota; without that the balance it speaks of is lost, as `FlowRuns.ReceiveConservation` says.
- FlowRuns.ReceiveBalance: assumes it too.
- Primitives.ReadVarValue: of an encoding of 613566757 bytes or more, where the 32-bit shift count of the loop has come round, only the bound on the value is stated.
- Publish.PublishRoundTrip: is about a reader that was given the header, as `Poll` does it; for one that reads its own header `Publish.OwnHeaderRoundTrip` says when it holds.
- PacketStream.ReceivePacket: reports UNSUBACK, AUTH and DISCONNECT as not modelled, since the client has no matching writer or its lengths disagree with what it emits.
- UnknownProperties.UnknownPublish: assumes that the loop meets no known identifier behind the unknown one; `UnknownProperties.FormatIndicator` does without that for the one property of a PUBLISH the client does not know, and `UnknownProperties.PayloadLost` for any.
- UnknownProperties.UnknownBlock: assumes the same, as the loop behind it.
- UnknownProperties.UnknownAck: assumes the same; MQTT 5.0 defines no property for acknowledgements that the client does not know.
- UnknownProperties.UnknownSuback: assumes the same, for the same reason.
- UnknownProperties.UnknownWhole: assumes the same.
- Events.EventRegistry.BindTopics: takes the steps of the binding loop without interruption; that the Go code unlocks between topics is covered by the runs of `Events.Step` and `EventRaces.Move`, in which each topic is bound by a step of its own.
- Events.PanicsExactly: is about whole operations one after the other; interleaved, a send on a closed channel does panic, as `EventRaces.HeldSendCrashes` says.
- Events.PoliteRunsOn: is about whole operations too; interleaved it is false, as `EventRaces.SendAfterClose` and `EventRaces.ClosedTwice` show, and `EventRaces.PoliteInterleaving` gives the exact condition.
- Events.PoliteDelivery: is about a routing with nothing between its steps; consumers in between are covered by `EventDelivery.DeliveryExact`, closes by `EventRaces.PoliteInterleaving`.
- Events.EventRegistry.Route: is the routing with nothing between its steps, for the same reason.
- EventDelivery.DeliveryExact: assumes that no channel is made, bound or closed during the routing; what a filter or channel that comes or goes meanwhile receives is not stated.
- EventRaces.SaneAlong: takes the close of a channel and its removal from both maps as one step, and a read of a map as one step; what Go does when maps are read and written at once without a common lock is not modelled.
- Liveness of a blocked `Publish` when calls overlap: `Exchanges.HeldBackExactly` is about calls that do not.
- Sockets, contexts, deadlines, the keep-alive timer and short reads: the environment.
- `Poll` error returns that leave a mutex locked, and the disconnect methods: a run ends at an error.
- Message retry, which the client does not implement, and outbound publishes whose QoS field holds 3.
- Error returns of `Publish` in front of the persistence: they only release connMutex.
- A CONNACK without Receive Maximum: the code stores 0, the standard says 65535; the model takes whatever value is stored.
- CONNECT, CONNACK, UNSUBACK, AUTH and DISCONNECT codecs: no matching reader and writer in the client.
- The byte counts returned by writers and by the readers of whole packets (string.go:51-62 loses the identifier byte): the bytes appended and consumed are modelled instead.
- The `Done` channel of an event channel: it is signalled and closed together with the event channel.
- Response channels of SUBSCRIBE and UNSUBSCRIBE, `$`-topics and shared subscriptions, which the matcher does not treat specially.
- backoff, reason-code texts, option setters of topics and plain getters: nothing to prove.
