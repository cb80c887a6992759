# AsyncMQTT-SN: a verified model

AsyncMQTT-SN is an MQTT-SN client for XBee and UDP networks and a gateway that
connects such clients to an MQTT broker. This project models both in Dafny 4.11
and proves what their protocols promise. `dafny verify dfyconfig.toml` checks it.

What is modelled, file by file:

- `EventQue`, `EventPairing`: the gateway's five tasks exchange bare events through
  three queues while the messages wait in queues of each client. The tasks are
  steps that interleave freely.
- `ClientNode`, `GatewayControl` with `GatewayMessages`: the state of a client at the
  gateway (status, keep-alive timer, pending CONNECT, held CONNACK, topics, ids) and
  the control task's handlers, as classes whose methods are proved against functions
  on values. `GatewayRuns`, `ConnectRuns`, `ConnackRuns`, `TopicRuns`: what holds of
  these functions over every run, and `GatewayAnswers`: what each message is answered
  and turned into, field by field. A run is any interleaving of arrivals, handled
  messages, sent CONNECTs, dropped connections, timer checks, passing time and changes
  of the shared protocol version by other clients; no order between arrival and handling
  is assumed, so the real runs are among them.
- `Topics`, `TopicIdMap`: the topic registry and the maps of ids that await an
  acknowledgement.
- `BrokerRecv`: the broker's byte stream cut into packets.
- `RemainingLength`, `MqttPublish`, `MqttConnect`: the MQTT packets, each with a reader
  that follows MQTT 3.1.1.
- `XBeeFrame`, `ZBStack`, `NetworkXBee`: escaped and checksummed frames, the gateway's
  decoder and encoder, and the client's.
- `PublishManager`, `PublishRuns`, `TaskManager`: the client's unfinished publishes,
  QoS 0, 1 and 2, and the counters of its tasks. `PublishLife`: what is sent for a
  publish, read from the steps of the run.
- `RetryList`: the retry policy that SubscribeManager and RegisterManager share.
- `ElementList`, `LinkRuns`: the links of the client's three lists, as remove() changes
  them, and the runs of the managers in which that is what is meant.
- `GwProxy`: the client's connect loop with retransmission. `SnFormats`: a reader for the
  client's messages that follows MQTT-SN 1.2.
- `Payload`: the MessagePack payload.
- `EndToEnd`, `ConnectToBroker`: the client's PUBLISH and its connect dialogue, from the
  application through the gateway to the broker's reader.
- `Bytes`, `Sequences`, `Wrappers`: bytes, strings and shared facts.

Findings. Where the code does not do what it is for, the model keeps the code and a
lemma says exactly when it does:

- The semaphore of an event queue does not count above 1, so events can stay behind
  unseen until the next post (`EventQue.StrandedExactly`, `EventQue.TwoPostsOneToken`).
- remove() leaves a wrong back link when it unlinks a middle element, and later cannot
  unlink the element that has it: the coded list is the intended one exactly in the runs
  in which no such element leaves (`LinkRuns.PublishListExactly`,
  `LinkRuns.RequestListExactly`); otherwise an acknowledged publish can stay in it
  (`LinkRuns.AcknowledgedStays`). The managers are modelled with the intended unlink.
- A CONNECT of the client takes its flag byte from the message written before it unless a
  clean session is asked for. Which runs and which configurations this harms is exact
  (`GwProxy.ConnectFlagsExactly`, `GwProxy.AlwaysRightExactly`), and there is a run
  (`GwProxy.WrongFlagsSent`).
- The length of a broker packet is computed in 16 bits: the splitting loop runs for ever
  exactly when it meets an announced multiple of 65536 (`BrokerRecv.EndlessExactly`),
  which a packet that keeps to the standard can be (`BrokerRecv.LegalPacketHangs`).
- Topic ids repeat exactly after 65280 names (`Topics.BijectionExactly`). The 8-bit count
  of a task is right exactly as long as the task never has 256 unfinished publishes
  (`PublishRuns.CountersAreExact`); isMaxFlight, read only between rounds, does not keep a
  task from that, and then it is due with all of them unfinished
  (`PublishRuns.CounterWraps`).
- The client's send() does not escape its frame id and address, and both cut the length
  of a payload over 241 bytes (`NetworkXBee.EmittedIsFrame`, `ZBStack.EmittedIsFrame`).
- isUtf8Valid accepts overlong characters and those behind U+10FFFF, and is otherwise exact
  (`MqttPublish.AcceptsExactly`, `MqttPublish.AcceptsLoose`).
- MessagePack values are written right (`Payload.WritesMessagePack`), but numbers from -127
  to -1 (save -16) and headers of arrays of 1 to 15 are not read back, and strings under 32
  bytes are not stepped over (`Payload.RandomAccess`, `Payload.SizeExactly`).
- The will's quality of service and RETAIN reach the broker exactly when the client asks
  for neither, since getQos of a WILLTOPIC has a logical operator in place of a mask
  (`ConnectRuns.WillReadExactly`, `ConnectRuns.WillQosIsLost`). A granted quality of
  service reaches the client exactly if it is 0 or 1 (`TopicRuns.GrantedQosExactly`).
  A retained PUBLISH of the broker reaches the client marked as a duplicate
  (`TopicRuns.PublishedUnderItsTopic`). An UNSUBSCRIBE by a long name carries no name to
  the broker (`TopicRuns.UnsubscribeNamesTopicExactly`).
- The client never goes to sleep: disconnect() with a duration waits on after the
  gateway's answer until it gives the gateway up (`GwProxy.DisconnectEnds`).

Conventions. Serial ports are lists of read attempts, each a byte or "ran dry"; the end
of the list is the timer running out. Clocks are parameters in milliseconds or seconds.
The list fields of the managers are sequences that the methods reassign. Handlers are
atomic steps. Strings are sequences of bytes.

## Model

| member | source | states |
|---|---|---|
| `EventQue.LeaveInPushOrder` | AsyncGateway/src/lib/ProcessFramework.h:317-349 | in every run of any number of producers and of wait() and timedwait() consumers, events leave in the order of the pushes, none lost, none twice; a timedwait that finds nothing yields the timeout event |
| `EventQue.QueueIsAccounted` | AsyncGateway/src/lib/ProcessFramework.cpp:516-537 | in every run under wait(): queue length = semaphore value + tokens taken but not popped + producers between push and the end of post() + calls of post() that left the semaphore alone |
| `EventQue.WaitFindsAnEvent` | AsyncGateway/src/lib/ProcessFramework.h:317-325 | wait() never reads the front of an empty queue, under any interleaving |
| `EventQue.StrandedExactly` | AsyncGateway/src/lib/ProcessFramework.cpp:524-527 | because post() raises the semaphore only when it reads 0, a finished run leaves events behind that nobody will be woken for if and only if the semaphore reads 0 and some post() skipped it |
| `EventQue.TwoPostsOneToken` | AsyncGateway/src/lib/ProcessFramework.cpp:524-527 | a concrete run in which this happens: two posts, one token |
| `EventQue.NextPostWakes` | AsyncGateway/src/lib/ProcessFramework.h:343-349 | a stranded event becomes available with the next post(), in its place |
| `EventQue.PostAloneDoes` | AsyncGateway/src/lib/ProcessFramework.h:343-349 | an uninterrupted post() appends the event and leaves the semaphore at least 1 |
| `EventQue.TimedwaitAloneDoes` | AsyncGateway/src/lib/ProcessFramework.h:327-341 | an uninterrupted timedwait() takes a token if there is one, and the oldest event |
| `EventQue.EventQue.Post` | AsyncGateway/src/lib/ProcessFramework.h:343-349 | the method does exactly the three steps of post() |
| `EventQue.EventQue.Wait` | AsyncGateway/src/lib/ProcessFramework.h:317-325 | takes a token and the oldest event |
| `EventQue.EventQue.Timedwait` | AsyncGateway/src/lib/ProcessFramework.h:327-341 | takes the oldest event with or without a token; the timeout event exactly when the queue is empty |
| `EventPairing.OneFifoOfPairs` | AsyncGateway/src/GatewayResourcesProvider.cpp:628-658 | for each of the four kinds of message, over every interleaving of the five tasks: consumers handle the (client, message) pairs in the order they were handed on, each once, and never see a null front; what is left is still outstanding |
| `EventPairing.NothingLostPerClient` | AsyncGateway/src/GatewayResourcesProvider.h:300-325 | for each client and kind: messages pushed = messages handled, then those waiting in its own queue, in order |
| `EventPairing.RunRefines` | AsyncGateway/src/GatewayResourcesProvider.cpp:628-658 | the events outstanding (in hand, queued, pushed but not posted) match each message queue one for one at every step, so the split queues refine one FIFO of pairs |
| `EventPairing.StepRefines` | AsyncGateway/src/ClientSendTask.cpp:116-131 | each single step of any task keeps that refinement: Take, Finish (delete ev pops) and the two halves of handing on |
| `EventPairing.PushRefines` | AsyncGateway/src/ClientRecvTask.cpp:187-291 | pushing a received message without its event yet appends to the abstract queue |
| `EventPairing.FinishRefines` | AsyncGateway/src/BrokerSendTask.cpp:76-143 | deleting the event pops exactly the message the consumer read |
| `EventPairing.StepKeepsHands` | AsyncGateway/src/ClientSendTask.cpp:120-130 | the message a consumer has read stays at the front of its queue until that consumer pops it, whatever the other tasks do |
| `EventPairing.HandNonempty` | AsyncGateway/src/GatewayResourcesProvider.h:300-310 | a consumer with an event in hand has read a message, not null |
| `EventPairing.MessageQue.GetMessage` | AsyncGateway/src/GatewayResourcesProvider.h:300-310 | the front, or nothing if the queue is empty |
| `EventPairing.MessageQue.Push` | AsyncGateway/src/GatewayResourcesProvider.h:312-316 | appends |
| `EventPairing.MessageQue.Pop` | AsyncGateway/src/GatewayResourcesProvider.h:318-325 | drops the front; harmless on an empty queue |
| `EventPairing.MessageQue.Clear` | AsyncGateway/src/GatewayResourcesProvider.h:327-334 | empties the queue |
| `Topics.RegisterKeeps` | AsyncGateway/src/lib/Topics.cpp:165-208 | registering a name keeps names distinct and ids in turn, changes no topic already there, and gives the name its old id or the next |
| `Topics.BijectionExactly` | AsyncGateway/src/lib/Topics.cpp:154-163 | names and ids are in bijection and lookup by id returns the registered name if and only if at most 65280 names are registered |
| `Topics.SessionKeepsIds` | AsyncGateway/src/lib/Topics.cpp:165-208 | over a whole session each registered name has an id of at least 256 which later registrations do not change |
| `Topics.ShortTopicAdded` | AsyncGateway/src/lib/Topics.cpp:173-186 | a new short topic has no id and leaves those of the others to come as they are |
| `Topics.NextIdAt` | AsyncGateway/src/lib/Topics.cpp:203-208 | the k-th new name gets id 256 + k modulo 65280 |
| `Topics.Topics.GetTopicByName` | AsyncGateway/src/lib/Topics.cpp:143-152 | the first topic with that name, or none |
| `Topics.Topics.GetTopicById` | AsyncGateway/src/lib/Topics.cpp:154-163 | the first topic with that id and type, or none |
| `Topics.Topics.GetTopicId` | AsyncGateway/src/lib/Topics.cpp:131-140 | the id of the name, 0 if unknown |
| `Topics.Topics.GetNextTopicId` | AsyncGateway/src/lib/Topics.cpp:203-208 | the 16-bit counter, which skips ids below 256 |
| `Topics.Topics.AddTopic` | AsyncGateway/src/lib/Topics.cpp:165-200 | appends a topic for a new name and returns the old one for a known name |
| `TopicIdMap.AddKeeps` | AsyncGateway/src/GatewayResourcesProvider.cpp:732-744 | the map stays sorted and within its limit; its entries are old ones or the new one; the new one is missing only if there was room and an entry for that id already |
| `TopicIdMap.EraseKeeps` | AsyncGateway/src/GatewayResourcesProvider.cpp:746-753 | erasing an id removes that entry and no other |
| `TopicIdMap.LookupIsEntry` | AsyncGateway/src/GatewayResourcesProvider.cpp:721-730 | a lookup finds a topic id exactly if that entry is there |
| `TopicIdMap.TopicIdMap.AddEntry` | AsyncGateway/src/GatewayResourcesProvider.cpp:732-744 | the method adds as the specification says and keeps the limit |
| `TopicIdMap.TopicIdMap.EraseEntry` | AsyncGateway/src/GatewayResourcesProvider.cpp:746-753 | erases as the specification says |
| `TopicIdMap.TopicIdMap.GetTopicId` | AsyncGateway/src/GatewayResourcesProvider.cpp:721-730 | 0 if there is no entry |
| `ClientNode.TwiceIsOnce` | AsyncGateway/src/GatewayResourcesProvider.cpp:240-243 | applying updateStatus to a message on arrival and again when it is handled gives the same status as once |
| `ClientNode.ClientNode.UpdateStatus` | AsyncGateway/src/GatewayResourcesProvider.cpp:325-381 | status, keep-alive and flags after any message in any status |
| `ClientNode.ClientNode.CheckTimeover` | AsyncGateway/src/GatewayResourcesProvider.cpp:255-260 | an Active client whose timer is up becomes Lost and its connection to the broker is closed, no other changes |
| `ClientNode.ClientNode.SetKeepAlive` | AsyncGateway/src/GatewayResourcesProvider.cpp:262-266 | stores the keep-alive and arms the timer with one and a half times it |
| `ClientNode.ClientNode.IsConnectSendable` | AsyncGateway/src/GatewayResourcesProvider.cpp:268-274 | false exactly for Lost and TryConnecting |
| `ClientNode.ClientNode.ConnectQued` | AsyncGateway/src/GatewayResourcesProvider.cpp:291-295 | Disconnected and Lost become TryConnecting |
| `ClientNode.ClientNode.ConnectSended` | AsyncGateway/src/GatewayResourcesProvider.cpp:280-289 | TryConnecting becomes Connecting and the pending CONNECT is dropped |
| `ClientNode.ClientNode.ConnackSended` | AsyncGateway/src/GatewayResourcesProvider.cpp:315-323 | Connecting becomes Active or is disconnected |
| `ClientNode.ClientNode.SetDisconnected` | AsyncGateway/src/GatewayResourcesProvider.cpp:297-301 | Disconnected, both CONNACK flags clear, nothing else changed |
| `ClientNode.ClientNode.CheckConnAck` | AsyncGateway/src/GatewayResourcesProvider.cpp:383-390 | holds the CONNACK back exactly while one of the flags is set |
| `ClientNode.ClientNode.CheckGetConnAck` | AsyncGateway/src/GatewayResourcesProvider.cpp:392-405 | hands out a held CONNACK at most once, clearing both flags, or notes that one is waited for |
| `ClientNode.ClientNode.SetConnAckSaveFlg` | AsyncGateway/src/GatewayResourcesProvider.cpp:407-410 | sets the flag and forgets an older CONNACK |
| `ClientNode.ClientNode.GetNextSnMsgId` | AsyncGateway/src/GatewayResourcesProvider.cpp:189-195 | the 8-bit message id skips 0 |
| `GatewayControl.GatewayControlTask.ClientEvent` | AsyncGateway/src/GatewayControlTask.cpp:187-224 | the dispatch for a message of the client: updateStatus and the handler; the new node and both queues are those of the specification |
| `GatewayControl.GatewayControlTask.BrokerEvent` | AsyncGateway/src/GatewayControlTask.cpp:226-254 | the dispatch for a message of the broker |
| `GatewayControl.GatewayControlTask.SnPublish` | AsyncGateway/src/GatewayControlTask.cpp:267-332 | registered topics are translated and their ids stored, others refused with a PUBACK if they have a message id |
| `GatewayControl.GatewayControlTask.ToMqtt` | AsyncGateway/src/GatewayControlTask.cpp:299-308 | the MQTT flags and fields of a translated PUBLISH |
| `GatewayControl.GatewayControlTask.SnSubscribe` | AsyncGateway/src/GatewayControlTask.cpp:337-446 | the four kinds of topic id and what each pushes, stores and registers |
| `GatewayControl.GatewayControlTask.SnUnsubscribe` | AsyncGateway/src/GatewayControlTask.cpp:451-500 | forwarded, or answered at once for the reserved kind |
| `GatewayControl.GatewayControlTask.SnConnect` | AsyncGateway/src/GatewayControlTask.cpp:601-660 | with and without a will, sendable and not: pending CONNECT, topics, id maps, CONNECT pushed or WILLTOPICREQ |
| `GatewayControl.GatewayControlTask.StartOver` | AsyncGateway/src/GatewayControlTask.cpp:613-636 | the CONNECT drafted for the broker, and what it resets |
| `GatewayControl.GatewayControlTask.DraftConnect` | AsyncGateway/src/GatewayControlTask.cpp:613-634 | the fields and flags of the CONNECT that are set for a client |
| `GatewayControl.GatewayControlTask.SnWillTopic` | AsyncGateway/src/GatewayControlTask.cpp:665-686 | the topic, and the quality of service that getQos makes of the flags, go into the pending CONNECT, if there is one |
| `GatewayControl.GatewayControlTask.SnWillMsg` | AsyncGateway/src/GatewayControlTask.cpp:691-742 | pushes the pending CONNECT, or rejects, or releases a held CONNACK |
| `GatewayControl.GatewayControlTask.SnRegister` | AsyncGateway/src/GatewayControlTask.cpp:771-793 | REGACK with the id of the name |
| `GatewayControl.GatewayControlTask.Connack` | AsyncGateway/src/GatewayControlTask.cpp:938-960 | translates the return code, flips the protocol when it is refused, sends or holds |
| `GatewayControl.GatewayControlTask.Puback` | AsyncGateway/src/GatewayControlTask.cpp:803-822 | forwards with the stored topic id and erases the entry |
| `GatewayControl.GatewayControlTask.Suback` | AsyncGateway/src/GatewayControlTask.cpp:889-914 | forwards with the stored topic id, erases the entry, and passes no granted quality of service on but 1 |
| `GatewayControl.GatewayControlTask.PublishDown` | AsyncGateway/src/GatewayControlTask.cpp:990-1075 | REGISTER before PUBLISH for a new name; nothing for a client that is not Active |
| `ClientNode.SnMsgIdsCycle` | AsyncGateway/src/GatewayResourcesProvider.cpp:189-195 | the message ids that the gateway makes up go round from 1 to 255 |
| `GatewayRuns.ActiveOnlyByConnack` | AsyncGateway/src/GatewayResourcesProvider.cpp:315-323 | over all interleavings a client becomes Active only from Connecting, on an accepted CONNACK that goes out in the same step: just received, or held and released by its WILLMSG |
| `GatewayRuns.LostOnlyByTimer` | AsyncGateway/src/GatewayResourcesProvider.cpp:255-260 | a client becomes Lost only from Active, when its timer is up |
| `GatewayRuns.LostIsLate` | AsyncGateway/src/GatewayResourcesProvider.cpp:262-266 | in every run, when that happens more than 1.5 times the keep-alive then in force has passed since the last message that armed the timer |
| `GatewayRuns.TimerIsLastArming` | AsyncGateway/src/GatewayResourcesProvider.cpp:325-381 | in every run the timer is the one armed by the last re-arming message, with that keep-alive |
| `GatewayRuns.LostLeftByDisconnected` | AsyncGateway/src/GatewayResourcesProvider.cpp:297-301 | the only way out of Lost is disconnected(): both callers of connectQued are guarded |
| `GatewayRuns.PlainUpstream` | AsyncGateway/src/GatewayControlTask.cpp:194-222 | messages outside the connect and will dialogue change only topics and message ids and push no CONNECT or CONNACK |
| `GatewayRuns.PlainDownstream` | AsyncGateway/src/GatewayControlTask.cpp:231-253 | the same for every message of the broker but CONNACK |
| `GatewayRuns.StatusExactly` | AsyncGateway/src/GatewayResourcesProvider.cpp:240-381 | from every state, each of the seven statuses is entered by exactly the steps listed: sleeping, waking, connecting, Active on acceptance alone, Lost by the timer alone, disconnecting |
| `GatewayRuns.KeepAliveExactly` | AsyncGateway/src/GatewayResourcesProvider.cpp:262-266 | in every run the keep-alive in force is that of the last CONNECT that started the timer, or the sleeping time announced since |
| `GatewayAnswers.SubscribeForwarded` | AsyncGateway/src/GatewayControlTask.cpp:337-417 | in every run, a SUBSCRIBE for a name reaches the broker as exactly one SUBSCRIBE with its message id, name, quality of service, DUP and RETAIN, the name has a topic id from then on, and nothing is answered |
| `GatewayAnswers.SubscribeAnswered` | AsyncGateway/src/GatewayControlTask.cpp:357-446 | a SUBSCRIBE for a predefined topic or of the reserved kind goes no further; its SUBACK has code 0 for the time and 2 for anything else, and the time follows in a PUBLISH |
| `GatewayAnswers.UnsubscribeAnswered` | AsyncGateway/src/GatewayControlTask.cpp:484-497 | an UNSUBSCRIBE of the reserved kind is answered and goes no further |
| `GatewayAnswers.RegisterAnswered` | AsyncGateway/src/GatewayControlTask.cpp:771-793 | a REGISTER is answered with code 0 and the id the name has then: its old one or the next |
| `GatewayAnswers.PublishRefusedExactly` | AsyncGateway/src/GatewayControlTask.cpp:278-332 | a PUBLISH goes to the broker if and only if its topic id is registered with that kind, and is refused with code 2 otherwise |
| `GatewayAnswers.AcksForwarded` | AsyncGateway/src/GatewayControlTask.cpp:803-914 | in every run, a PUBACK of the broker goes on with code 0 and the stored topic id, a SUBACK with 0 or, if the broker refused, 2; without an entry nothing goes out |
| `GatewayAnswers.PassedOn` | AsyncGateway/src/GatewayControlTask.cpp:505-935 | PUBREC, PUBREL, PUBCOMP, PINGREQ, PINGRESP, DISCONNECT and UNSUBACK go through with their kind, id and duration |
| `GatewayAnswers.DialogueAnswered` | AsyncGateway/src/GatewayControlTask.cpp:638-683 | WILLTOPICREQ and WILLMSGREQ ask for the will; while no CONNECT can be sent on the next CONNACK is to be held; a CONNECT without a will goes to the broker if it can |
| `GatewayAnswers.ConnackSentAtOnce` | AsyncGateway/src/GatewayControlTask.cpp:938-960 | in every run, with neither flag set a CONNACK of the broker sends the client exactly one, with its tag, accepted if and only if the return code is 0 and else with code 3, 1 or 2; a connecting client becomes Active if and only if it is accepted, else Disconnected |
| `GatewayAnswers.ConnackHeld` | AsyncGateway/src/GatewayResourcesProvider.cpp:383-391 | with a flag set it is held with that code, and nothing else changes |
| `GatewayAnswers.WillMsgAnswered` | AsyncGateway/src/GatewayControlTask.cpp:698-742 | every outcome of a WILLMSG: the CONNECT pushed, refused for congestion, the held CONNACK released and the status that follows it, or the next one held |
| `GatewayAnswers.HeldGoesOut` | AsyncGateway/src/GatewayResourcesProvider.cpp:393-405 | a CONNACK that is held goes out, with its code, with the WILLMSG that finds it |
| `GatewayAnswers.OtherPublishes` | AsyncGateway/src/GatewayControlTask.cpp:990-1075 | a client that is not Active is sent nothing; a name of two characters goes out under the short kind |
| `GatewayAnswers.ProtocolExactly` | AsyncGateway/src/GatewayControlTask.cpp:945-947 | the protocol version is 4 or 3, and changes exactly when a broker refuses it |
| `ConnectRuns.ConnectsAreBounded` | AsyncGateway/src/GatewayControlTask.cpp:601-742 | in every run, CONNECTs pushed to the broker plus one if one is pending never exceed the CONNECTs handled |
| `ConnectRuns.PendingInvariant` | AsyncGateway/src/GatewayControlTask.cpp:613-683 | in every run a pending CONNECT is the draft of the last CONNECT that could be sent on, which asked for a will, with the last WILLTOPIC since; and none is pending in TryConnecting |
| `ConnectRuns.ConnectSentFreesNothing` | AsyncGateway/src/GatewayResourcesProvider.cpp:280-289 | so connectSended() never throws a pending CONNECT away |
| `ConnectRuns.WhereConnectsComeFrom` | AsyncGateway/src/GatewayControlTask.cpp:638-707 | a CONNECT without a will answers its CONNECT at once; one with a will is pushed only by handleSnWillMsg, with that message and the last WILLTOPIC |
| `ConnectRuns.BrokerReadsRequest` | AsyncGateway/src/lib/Messages.cpp:1613-1669 | the bytes of every CONNECT pushed, under 65536, are read by a broker that follows section 3.1 of MQTT 3.1.1 as the client's request: protocol, clean session, keep-alive, client id, login, and will |
| `ConnectRuns.WillReadExactly` | AsyncGateway/src/lib/Messages.cpp:386-412 | in every run, the broker reads the quality of service the client's last WILLTOPIC asked for if and only if that was 0, and its RETAIN if and only if it was not set |
| `ConnectRuns.WillQosIsLost` | AsyncGateway/src/lib/Messages.cpp:410-412 | a concrete run: the will is asked for with quality of service 1, retained, and read with 0, not retained |
| `ConnackRuns.ConnAcksConserved` | AsyncGateway/src/GatewayResourcesProvider.cpp:383-410 | for every CONNACK value: those sent plus the one held never outnumber those received from the broker, in every run |
| `ConnackRuns.HeldUntilWillMsg` | AsyncGateway/src/GatewayResourcesProvider.cpp:383-405 | while one of the flags is set no CONNACK goes to the client, except released by its WILLMSG |
| `ConnackRuns.OwnConnAcksReject` | AsyncGateway/src/GatewayControlTask.cpp:707-738 | every CONNACK the gateway makes itself is a rejection |
| `ConnackRuns.AcceptedByBroker` | AsyncGateway/src/GatewayControlTask.cpp:943-960 | every accepted CONNACK that reaches the client comes from a broker CONNACK with return code 0 |
| `TopicRuns.TopicsWellFormed` | AsyncGateway/src/GatewayControlTask.cpp:626-633 | in every run the registry is well formed and no topic changes, unless a clean session is started |
| `TopicRuns.PublishedUnderItsTopic` | AsyncGateway/src/GatewayControlTask.cpp:1005-1072 | in every run a PUBLISH of the broker for an Active client goes out under the id its name then has, with its message id, payload and QoS; a new name takes the next id and goes out in a REGISTER directly before; RETAIN is turned into DUP |
| `TopicRuns.UnsubscribeNamesTopicExactly` | AsyncGateway/src/GatewayControlTask.cpp:463-481 | an UNSUBSCRIBE carries its name to the broker if and only if it names a short topic, or nothing |
| `TopicRuns.IdsInvariant` | AsyncGateway/src/GatewayControlTask.cpp:287-297 | in every run each id map stays within its limit and holds only ids of at least 256 that the client sent and still waits for |
| `TopicRuns.GrantedQosExactly` | AsyncGateway/src/GatewayControlTask.cpp:900-907 | in every run, a SUBACK for a waiting subscription reaches the client with the quality of service granted if and only if that is 0 or 1 |
| `TopicRuns.AcksAreCorrelated` | AsyncGateway/src/GatewayControlTask.cpp:809-820 | every PUBACK and SUBACK passed on carries the topic id the client sent under that message id since the maps were cleared, and is then no longer waited for |
| `TopicRuns.AnsweredAtMostOnce` | AsyncGateway/src/GatewayControlTask.cpp:893-913 | under each message id, acknowledgements passed on never outnumber the client's messages |
| `BrokerRecv.SplitIsExact` | AsyncGateway/src/BrokerRecvTask.cpp:141-235 | a buffer that starts with complete packets is split into exactly these, in order, and the loop ends |
| `BrokerRecv.EndlessExactly` | AsyncGateway/src/BrokerRecvTask.cpp:230-234 | for every buffer and length, the loop goes round for ever if and only if, going from packet to packet, it meets among the bytes received one of a known type whose announced length is a multiple of 65536 |
| `BrokerRecv.LegalPacketHangs` | AsyncGateway/src/BrokerRecvTask.cpp:230-234 | a packet that keeps to the standard, of remaining length 65532, is one |
| `BrokerRecv.SplitCanHang` | AsyncGateway/src/BrokerRecvTask.cpp:230-234 | four bytes are enough |
| `BrokerRecv.ReadEncoded` | AsyncGateway/src/lib/Messages.cpp:1219-1241 | each kind of packet is read back field by field, whatever follows it |
| `BrokerRecv.RecvAndFireEvent` | AsyncGateway/src/BrokerRecvTask.cpp:126-236 | the loop pushes what the specification says and ends the same way; the client is disconnected if and only if the read failed or a PUBLISH was refused |
| `RemainingLength.RoundTrip` | AsyncGateway/src/lib/Messages.cpp:1113-1150 | decode after encode is the identity on all 16-bit lengths, in one to three digits, whatever follows |
| `RemainingLength.DecodeIsValueModulo` | AsyncGateway/src/lib/Messages.cpp:1125-1136 | for any digits decode yields the value of section 2.2.3 modulo 65536 |
| `RemainingLength.RemainingLength.EncodeLength` | AsyncGateway/src/lib/Messages.cpp:1113-1123 | the loop writes the digits of the specification |
| `RemainingLength.RemainingLength.DecodeLength` | AsyncGateway/src/lib/Messages.cpp:1125-1136 | the loop computes the specified value |
| `MqttPublish.PublishRoundTrip` | AsyncGateway/src/lib/Messages.cpp:1722-1773 | deserialize after serialize restores flags, topic, payload and, above QoS 0, message id, for payloads up to 255 bytes and valid topics |
| `MqttPublish.AcceptsExactly` | AsyncGateway/src/lib/Messages.cpp:51-77 | a string is UTF-8 as section 4 of RFC 3629 has it if and only if isUtf8Valid accepts it and it has no overlong character and none behind U+10FFFF |
| `MqttPublish.AcceptsLoose` | AsyncGateway/src/lib/Messages.cpp:51-77 | a string of one overlong character that is accepted |
| `MqttPublish.IsUtf8Valid` | AsyncGateway/src/lib/Messages.cpp:51-77 | the loop decides the recursive definition of the accepted strings |
| `MqttPublish.MQTTPublish.SerializeTo` | AsyncGateway/src/lib/Messages.cpp:1722-1742 | writes exactly the specified bytes and the announced length |
| `MqttPublish.MQTTPublish.DeserializeFrom` | AsyncGateway/src/lib/Messages.cpp:1744-1773 | succeeds exactly when the specification does, with its fields |
| `MqttConnect.ConnectIsRead` | AsyncGateway/src/lib/Messages.cpp:1613-1669 | serialize writes exactly the announced number of bytes and a reader that follows section 3.1 of MQTT 3.1.1 recovers every field and stops right behind the packet |
| `MqttConnect.SettersAreDisjoint` | AsyncGateway/src/lib/Messages.cpp:1566-1611 | each setter changes, in the broker's view, only the field it is for |
| `MqttConnect.Announced` | AsyncGateway/src/lib/Messages.cpp:1613-1669 | the payload fields written are those the flag byte announces |
| `MqttConnect.MQTTConnect.SetUserName` | AsyncGateway/src/lib/Messages.cpp:1570-1574 | the broker reads this user name, and every other field as before; consistent flags stay so |
| `MqttConnect.MQTTConnect.SetPassword` | AsyncGateway/src/lib/Messages.cpp:1576-1580 | the broker reads this password, and every other field as before; consistent flags stay so |
| `MqttConnect.MQTTConnect.SetWillMessage` | AsyncGateway/src/lib/Messages.cpp:1582-1586 | the broker reads a will with this message, its topic, quality of service and RETAIN as they were, and every other field as before; consistent flags stay so |
| `MqttConnect.MQTTConnect.SetWillTopic` | AsyncGateway/src/lib/Messages.cpp:1588-1592 | the broker reads a will with this topic, its message, quality of service and RETAIN as they were, and every other field as before; consistent flags stay so |
| `MqttConnect.MQTTConnect.SetWillQos` | AsyncGateway/src/lib/Messages.cpp:1594-1597 | the broker reads the will with this quality of service, and every other field as before; consistent flags stay so |
| `MqttConnect.MQTTConnect.SetCleanSessionFlg` | AsyncGateway/src/lib/Messages.cpp:1607-1611 | the broker reads a clean session, and every other field as before; consistent flags stay so |
| `MqttConnect.MQTTConnect.SerializeTo` | AsyncGateway/src/lib/Messages.cpp:1613-1669 | writes exactly the specified bytes |
| `XBeeFrame.OnlyOneStart` | AsyncGateway/src/lib/ZBStack.cpp:195-248 | a frame holds START at its first byte and nowhere else |
| `XBeeFrame.EscapesExactly` | AsyncGateway/src/lib/ZBStack.cpp:241-248 | the four special bytes go out behind 0x7D with the bit 0x20 inverted, all others as they are |
| `XBeeFrame.EscapedLength` | AsyncGateway/src/lib/ZBStack.cpp:241-248 | escaping changes nothing exactly if no byte is special |
| `XBeeFrame.OneByteChangeBreaksChecksum` | AsyncGateway/src/lib/ZBStack.cpp:159-168 | changing any one data byte changes the checksum |
| `XBeeFrame.BlockIsFrameExactly` | AsyncGateway/src/lib/ZBStack.cpp:195-232 | escaped data with its length cut to a byte is a frame if and only if it has fewer than 256 bytes |
| `ZBStack.GatewayDecodes` | AsyncGateway/src/lib/ZBStack.cpp:104-183 | the gateway's receiver, from any state without a pending escape and wherever the port runs dry, delivers exactly the data of a frame of up to 125 bytes, and rejects it if its checksum byte is wrong |
| `ZBStack.Network.ReadApiFrame` | AsyncGateway/src/lib/ZBStack.cpp:127-183 | the byte loop, tied to the specification of one burst |
| `ZBStack.Network.ReadApiFrameTimed` | AsyncGateway/src/lib/ZBStack.cpp:104-125 | the timed loop over bursts |
| `ZBStack.GatewayRejectsChange` | AsyncGateway/src/lib/ZBStack.cpp:159-168 | the gateway rejects a frame of which one data byte or the checksum has been changed, and stops right behind it |
| `ZBStack.TooLongIsRejected` | AsyncGateway/src/lib/ZBStack.cpp:163-166 | a frame of more than 125 data bytes is rejected as too long, from any state without a pending escape and wherever the port runs dry |
| `ZBStack.ResponseFound` | AsyncGateway/src/lib/ZBStack.cpp:81-90 | a response frame of 12 to 125 data bytes yields exactly its payload, if and only if its checksum is right |
| `ZBStack.RequestIsRead` | AsyncGateway/src/lib/ZBStack.cpp:195-232 | the data of the request is read, by the API frame format, with its destination and payload |
| `ZBStack.EmittedIsFrame` | AsyncGateway/src/lib/ZBStack.cpp:195-232 | what the gateway's send() writes is the frame of its request for payloads up to 241 bytes, and no frame for longer ones |
| `ZBStack.Network.GetResponse` | AsyncGateway/src/lib/ZBStack.cpp:81-90 | on any traffic: finds what the timed receiver leaves if that is a response, with its start and length |
| `ZBStack.Network.Send` | AsyncGateway/src/lib/ZBStack.cpp:195-232 | writes the escaped request, its length cut to a byte, for every payload and address |
| `ZBStack.Network.SendByte` | AsyncGateway/src/lib/ZBStack.cpp:241-248 | appends one escaped byte |
| `NetworkXBee.ClientDecodes` | AsyncClient/src/lib/NetworkXBee.cpp:323-411 | the client's decoder, whatever precedes START and wherever the port runs dry, stops right behind a frame, yields its data, and accepts it if and only if its checksum byte is right |
| `NetworkXBee.ClientRejectsChange` | AsyncClient/src/lib/NetworkXBee.cpp:399-411 | the client rejects a frame of which one data byte or the checksum has been changed, and stops right behind it |
| `NetworkXBee.FrameJudged` | AsyncClient/src/lib/NetworkXBee.cpp:346-372 | a frame that fits the buffer counts as a response if and only if its checksum is right and it comes from the gateway or has the broadcast bit, and as a transmit status if and only if its checksum is right |
| `NetworkXBee.RequestIsRead` | AsyncClient/src/lib/NetworkXBee.cpp:421-480 | the data of the request is read with its frame id, destination and payload |
| `NetworkXBee.FrameIdsGoOn` | AsyncClient/src/lib/NetworkXBee.cpp:433-437 | the frame ids go round through all bytes |
| `NetworkXBee.EmittedIsBlock` | AsyncClient/src/lib/NetworkXBee.cpp:421-480 | what the client's send() writes is the escaped request if and only if neither the frame id nor an address byte needs escaping |
| `NetworkXBee.EmittedIsFrame` | AsyncClient/src/lib/NetworkXBee.cpp:421-480 | so it is the frame of its request if and only if that holds, for payloads up to 241 bytes, and no frame for longer ones |
| `NetworkXBee.Network.ReceiveByte` | AsyncClient/src/lib/NetworkXBee.cpp:503-532 | one byte with its escape undone; a time-out keeps the buffer |
| `NetworkXBee.Network.ReadApiFrame` | AsyncClient/src/lib/NetworkXBee.cpp:375-411 | the loop, tied to the specification of a frame; data goes into the buffer of 129 bytes, and it says exactly when bytes are written behind its end |
| `NetworkXBee.Network.ReadApiFrameTimed` | AsyncClient/src/lib/NetworkXBee.cpp:323-373 | searches for START and says what the frame behind it stands for, from the buffer's bytes |
| `NetworkXBee.Network.Send` | AsyncClient/src/lib/NetworkXBee.cpp:421-492 | writes the specified bytes, advances the frame id, and acknowledges a unicast if and only if the next frame is a transmit status |
| `PublishRuns.LeavesOnlyWhenDone` | AsyncClient/src/lib/PublishManager.cpp:177-214 | in every run without reuse of ids in flight: a QoS 1 publish leaves the list only on an accepted PUBACK with its id while it waits for it, a QoS 2 publish only on a PUBCOMP with its id after a PUBREC |
| `PublishRuns.LeavesWhenDone` | AsyncClient/src/lib/PublishManager.cpp:177-214 | and that acknowledgement does take it out |
| `PublishRuns.TimeoutsRemoveNothing` | AsyncClient/src/lib/PublishManager.cpp:227-243 | in every run checkTimeout removes no element, so its walk never steps through one that sendPublish has freed |
| `PublishRuns.DupMarksCopies` | AsyncClient/src/lib/PublishManager.cpp:106-131 | in every run a PUBLISH has DUP set exactly when a copy has gone out since its retry count was last set to 3 |
| `PublishRuns.BudgetIsKept` | AsyncClient/src/lib/PublishManager.cpp:130-131 | in every run an element's retry count is 3 minus the copies sent since it was set |
| `PublishRuns.CountersAreExact` | AsyncClient/src/lib/TaskManager.cpp:98-106 | in every run, a task's count equals the number of its unfinished publishes after every step if and only if the task never has 256 of them, a publish of quality of service 0 included while it is sent |
| `PublishRuns.LengthExactly` | AsyncClient/src/lib/PublishManager.cpp:283-357 | in every run, _elmCnt is the length of the list if and only if that is under 256 |
| `PublishRuns.DueTasksHaveNothingLeft` | AsyncClient/src/lib/TaskManager.cpp:71-80 | so a task that has never had 256 unfinished publishes is due if and only if more than its interval has passed and none of its publishes is unfinished |
| `PublishRuns.CounterWraps` | AsyncClient/src/lib/TaskManager.cpp:104-106 | a run with fresh message ids that leads to 256 unfinished publishes of one task: its count reads 0 and the task is due |
| `PublishRuns.CallbacksAreNotCharged` | AsyncClient/src/lib/PublishManager.cpp:216-225 | a publish made inside a subscribe callback is charged to no task |
| `PublishLife.ListIsTold` | AsyncClient/src/lib/PublishManager.cpp:295-359 | in every run with fresh ids, each unfinished publish has the name, payload, quality of service, RETAIN and task of its call, the topic id of the table, the call or its release, and awaits what was last sent for it, since then |
| `PublishLife.SentAsCalled` | AsyncClient/src/lib/PublishManager.cpp:97-119 | whenever a PUBLISH goes out it carries the name, payload, quality of service and RETAIN of the last publish with its id, under the topic id of the table, the call or the REGACK that released it |
| `PublishLife.PublishIsRead` | AsyncClient/src/lib/PublishManager.cpp:97-119 | its bytes are read so by the format of section 5.4.12 of MQTT-SN 1.2, for every kind of topic id |
| `PublishLife.PublishSends` | AsyncClient/src/lib/PublishManager.cpp:79-148 | a publish whose topic id is known goes out at once, one that is not asks for its name; a REGACK sends the first publish that waits for its name |
| `PublishLife.TimeoutSendsExactly` | AsyncClient/src/lib/PublishManager.cpp:227-243 | a time-out sends again exactly the late publishes before the first one that has used up its copies, which reconnects |
| `PublishLife.AcknowledgementsAnswered` | AsyncClient/src/lib/PublishManager.cpp:177-214 | in every run with fresh ids, a PUBREC sends exactly one PUBREL with its id if the publish awaits a PUBREC or PUBCOMP and nothing otherwise; a PUBACK that refuses the topic id asks to register exactly that topic |
| `PublishLife.LeavesAfterPubRel` | AsyncClient/src/lib/PublishManager.cpp:195-214 | a publish of quality of service 2 leaves only on its PUBCOMP, after a PUBREL sent for it since it was published |
| `PublishRuns.IdsStayUnique` | AsyncClient/src/lib/PublishManager.cpp:246-256 | ids stay unique in the list if none is reused in flight |
| `PublishManager.StepKeepsSane` | AsyncClient/src/lib/PublishManager.cpp:90-148 | every step keeps each element in a status that fits its QoS, with a retry count from -1 to 3, suspended elements unsent |
| `PublishManager.WalkKeepsElements` | AsyncClient/src/lib/PublishManager.cpp:227-243 | a time-out changes no element but by sending it or resetting its count |
| `PublishManager.PublishManager.PublishTopic` | AsyncClient/src/lib/PublishManager.cpp:76-83 | publish by name: sent at once or suspended and registered |
| `PublishManager.PublishManager.PublishId` | AsyncClient/src/lib/PublishManager.cpp:85-88 | publish by topic id: sent at once |
| `PublishManager.PublishManager.AddElement` | AsyncClient/src/lib/PublishManager.cpp:295-359 | the new element, charged to the running task unless a callback runs |
| `PublishManager.PublishManager.Transmit` | AsyncClient/src/lib/PublishManager.cpp:90-132 | what is sent and what becomes of the element by QoS |
| `PublishManager.PublishManager.RemoveElement` | AsyncClient/src/lib/PublishManager.cpp:270-292 | the element leaves, the counters follow |
| `PublishManager.PublishManager.ReleaseSuspended` | AsyncClient/src/lib/PublishManager.cpp:135-148 | the first suspended publish of that name is sent under its new id |
| `PublishManager.PublishManager.PubAckReceived` | AsyncClient/src/lib/PublishManager.cpp:178-194 | accepted, rejected for its topic id, or ignored |
| `PublishManager.PublishManager.PubRecReceived` | AsyncClient/src/lib/PublishManager.cpp:195-204 | PUBREL sent, PUBCOMP awaited |
| `PublishManager.PublishManager.PubCompReceived` | AsyncClient/src/lib/PublishManager.cpp:205-212 | removed if awaited |
| `PublishManager.PublishManager.TimeoutCheck` | AsyncClient/src/lib/PublishManager.cpp:227-243 | the walk, tied to its specification, and the list keeps its length |
| `TaskManager.TaskManager.Round` | AsyncClient/src/lib/TaskManager.cpp:74-80 | invokes exactly the tasks that are due and have count 0 |
| `TaskManager.TaskManager.SuspendTask` | AsyncClient/src/lib/TaskManager.cpp:104-106 | the 8-bit count goes up, wrapping |
| `TaskManager.TaskManager.DoneTask` | AsyncClient/src/lib/TaskManager.cpp:98-102 | the count goes down, not below 0 |
| `RetryList.AtMostFourCopies` | AsyncClient/src/lib/SubscribeManager.cpp:138-158 | in every run a SUBSCRIBE, UNSUBSCRIBE or REGISTER goes out at most 4 times before it is answered or given up |
| `RetryList.WalkProgress` | AsyncClient/src/lib/SubscribeManager.cpp:218-242 | a time-out pass that meets an expired element strictly lowers the sum of retryCount + 2, and one that meets none changes nothing |
| `RetryList.ListEmpties` | AsyncClient/src/lib/RegisterManager.cpp:210-235 | without new requests and answers the list is empty after as many time-outs as that sum |
| `RetryList.RequestSentAsMade` | AsyncClient/src/lib/SubscribeManager.cpp:138-158 | in every run with fresh ids, whatever goes out is the request last made with its id; DUP is set if and only if it is a SUBSCRIBE that has gone out before |
| `RetryList.RequestsTold` | AsyncClient/src/lib/SubscribeManager.cpp:197-215 | every request that waits is the one made with its id, and remembers when it was last sent |
| `RetryList.AddAndAnswerExactly` | AsyncClient/src/lib/SubscribeManager.cpp:245-261 | a new request joins the list behind the others, an answer takes out the request with its id and no other |
| `RetryList.WalkIsExact` | AsyncClient/src/lib/SubscribeManager.cpp:218-242 | a pass sends exactly the late requests with copies left and drops exactly the late ones without, unless it has ended by dropping the first |
| `RetryList.WalkUses` | AsyncClient/src/lib/SubscribeManager.cpp:218-242 | a pass sends an element at most once, and removes only what has used up its budget |
| `RetryList.Manager.AddRequest` | AsyncClient/src/lib/SubscribeManager.cpp:197-215 | a new request goes out at once |
| `RetryList.Manager.RegisterTopic` | AsyncClient/src/lib/RegisterManager.cpp:171-178 | a topic is asked for once at a time: a new name is added and its REGISTER sent |
| `RetryList.Manager.Answered` | AsyncClient/src/lib/SubscribeManager.cpp:245-261 | an answer removes the request with its id |
| `RetryList.Manager.TimeoutCheck` | AsyncClient/src/lib/SubscribeManager.cpp:218-242 | the walk, which ends when it removes the first or the last element |
| `RetryList.Manager.Send` | AsyncClient/src/lib/SubscribeManager.cpp:138-158 | sends, DUP only for a repeated SUBSCRIBE, one copy less left |
| `ElementList.SameExactly` | AsyncClient/src/lib/PublishManager.cpp:270-285 | over every sequence of additions and removals, remove() as coded keeps the list as it is meant to be if and only if it is never asked for an element whose back link is stale |
| `ElementList.EndsAreSafe` | AsyncClient/src/lib/PublishManager.cpp:270-285 | so it does as long as elements leave at the ends |
| `ElementList.ElementList.Remove` | AsyncClient/src/lib/PublishManager.cpp:270-285 | remove() as coded, link by link: which element leaves, which back link becomes stale, and that an element with a stale one stays in the list |
| `LinkRuns.PublishListExactly` | AsyncClient/src/lib/PublishManager.cpp:270-285 | in every run of publishes and acknowledgements, the coded list is the intended one all along if and only if no publish with a stale back link leaves it |
| `LinkRuns.AcknowledgedStays` | AsyncClient/src/lib/PublishManager.cpp:280 | a concrete run: of three publishes the second and then the third are acknowledged, and the third stays in the coded list |
| `LinkRuns.RequestListExactly` | AsyncClient/src/lib/SubscribeManager.cpp:119-132 | the same of the lists of SUBSCRIBEs and REGISTERs and the walks of checkTimeout |
| `ElementList.ElementList.Add` | AsyncClient/src/lib/PublishManager.cpp:346-356 | appends and links both ways |
| `GwProxy.ConnectedAfterDialogue` | AsyncClient/src/lib/GwProxy.cpp:90-186 | in every run of connect(), connected only by CONNACK 0, and the sends since the last fresh CONNECT are 1-3 CONNECTs, then with a will 1-3 WILLTOPICs and 1-3 WILLMSGs, in this order |
| `GwProxy.BufferIsAwaited` | AsyncClient/src/lib/GwProxy.cpp:150-155 | in every run the buffer that a time-out re-sends holds the message whose answer the status awaits |
| `GwProxy.AtMostThreeCopies` | AsyncClient/src/lib/GwProxy.cpp:151-166 | in every run each message written goes out at most 3 times, and the retry count says how many are left |
| `GwProxy.SentAsConfigured` | AsyncClient/src/lib/GwProxy.cpp:90-145 | every message of every run of connect() that begins Lost or Disconnected is read, by the formats of MQTT-SN 1.2, as what the application configured: keep-alive, first 23 characters of the client id, will topic, flags and message |
| `GwProxy.WritesExactly` | AsyncClient/src/lib/GwProxy.cpp:93-140 | which message connect() writes in which status, and what it awaits then |
| `GwProxy.RoundIsExact` | AsyncClient/src/lib/GwProxy.cpp:147-186 | the awaited answer and no other moves the dialogue on; more than ten seconds of silence send the message again if it has gone out fewer than three times, and else start over |
| `GwProxy.DisconnectIsRead` | AsyncClient/src/lib/GwProxy.cpp:194-206 | a DISCONNECT is read with its duration |
| `GwProxy.DisconnectIsExact` | AsyncClient/src/lib/GwProxy.cpp:220-244 | an answer ends the wait, silence asks again as often as the retry count says, and then gives the gateway up |
| `ConnectToBroker.ConnectReachesBroker` | AsyncGateway/src/GatewayControlTask.cpp:601-660 | from the client's bytes to the broker's reader: whatever the gateway has done before, the CONNECT of a client without a will, if one can be sent on, is read with its keep-alive, clean session and name |
| `ConnectToBroker.WillReachesBroker` | AsyncGateway/src/GatewayControlTask.cpp:601-707 | the same for CONNECT, WILLTOPIC and WILLMSG in turn, with the will's topic and message |
| `GwProxy.ConnectFlagsExactly` | AsyncClient/src/lib/GwProxy.cpp:90-128 | in every run of connect(), a CONNECT goes out with the flags configured if and only if a clean session is asked for or the message written before it leaves a usable third byte in the buffer |
| `GwProxy.AlwaysRightExactly` | AsyncClient/src/lib/GwProxy.cpp:90-128 | whatever the gateway does, all CONNECTs of a client that had lost it are right if and only if the application asks for a clean session, has no will, or has one whose flags and first character are 0 or the will flag |
| `GwProxy.WrongFlagsSent` | AsyncClient/src/lib/GwProxy.cpp:110-128 | a concrete run: a will, a refused connection, and a CONNECT with flags 0x7F where 0x08 is meant |
| `GwProxy.FlagsIntendedExactly` | AsyncClient/src/lib/GwProxy.cpp:110-128 | the flags of a CONNECT as a function of the byte left over: which bytes do no harm |
| `GwProxy.RightAfterSearch` | AsyncClient/src/lib/GwProxy.cpp:131-136 | so it has after SEARCHGW |
| `GwProxy.DisconnectEnds` | AsyncClient/src/lib/GwProxy.cpp:194-244 | disconnect() ends Disconnected only on an answer, and with a duration it never ends asleep but, if it ends, Lost |
| `GwProxy.GwProxy.Disconnect` | AsyncClient/src/lib/GwProxy.cpp:194-218 | the loop follows the specification, and sends nothing but its DISCONNECT, at most four times |
| `GwProxy.GwProxy.GetDisconnectResponce` | AsyncClient/src/lib/GwProxy.cpp:220-244 | one round of that loop: the status, and whether the DISCONNECT goes out again |
| `GwProxy.GwProxy.WriteNext` | AsyncClient/src/lib/GwProxy.cpp:93-141 | the first half of a round |
| `GwProxy.GwProxy.GetConnectResponce` | AsyncClient/src/lib/GwProxy.cpp:147-186 | the second half of a round |
| `GwProxy.GwProxy.Connect` | AsyncClient/src/lib/GwProxy.cpp:90-145 | the loop follows a run and sends what the run sends |
| `Payload.RandomAccess` | AsyncClient/src/lib/Payload.cpp:307-354 | after any successful sets of values that are no strings under 32 bytes, an index gives its value back if and only if the value is none of -127..-1 save -16 and no array header of 1 to 15 |
| `Payload.WritesMessagePack` | AsyncClient/src/lib/Payload.cpp:104-209 | what the setters write is MessagePack: a reader that follows the specification recovers every value and stops right behind it |
| `Payload.WalkLands` | AsyncClient/src/lib/Payload.cpp:307-354 | getBufferPos lands on the start of the element |
| `Payload.SizeExactly` | AsyncClient/src/lib/Payload.cpp:313-346 | the walk steps over a value as a whole if and only if it is no string under 32 bytes |
| `Payload.ReadsBackExactly` | AsyncClient/src/lib/Payload.cpp:213-304 | each getter returns its value if and only if it is one of those |
| `Payload.FitsInRoom` | AsyncClient/src/lib/Payload.cpp:104-209 | no setter writes more bytes than it has checked for, and what it checks for |
| `Payload.Payload.SetUInt32` | AsyncClient/src/lib/Payload.cpp:104-124 | appends the encoding if there is room, else refuses without writing a byte |
| `Payload.Payload.SetInt32` | AsyncClient/src/lib/Payload.cpp:126-148 | appends the encoding if there is room, else refuses without writing a byte |
| `Payload.Payload.SetFloat` | AsyncClient/src/lib/Payload.cpp:150-159 | appends the encoding if there is room, else refuses without writing a byte |
| `Payload.Payload.SetStr` | AsyncClient/src/lib/Payload.cpp:165-181 | appends the encoding if there is room, else refuses without writing a byte |
| `Payload.Payload.SetArray` | AsyncClient/src/lib/Payload.cpp:183-196 | appends the encoding if there is room, else refuses without writing a byte |
| `Payload.Payload.SetBool` | AsyncClient/src/lib/Payload.cpp:198-209 | appends the encoding if there is room, else refuses without writing a byte |
| `Payload.Payload.GetBufferPos` | AsyncClient/src/lib/Payload.cpp:307-354 | the loop finds the position of the specification, for indices below 255 |
| `EndToEnd.PublishReachesBroker` | AsyncGateway/src/GatewayControlTask.cpp:267-313 | for a payload of at most 128 bytes on a registered topic: the client's bytes, absorbed, translated and serialised, are read by section 3.3 of MQTT 3.1.1 with that name and the same QoS, DUP, RETAIN, payload and message id |
| `EndToEnd.CallReachesBroker` | AsyncClient/src/lib/PublishManager.cpp:79-119 | from the application to the broker: in every run of the client with fresh ids, a PUBLISH under a registered topic id is read by the broker as the last call of publish() with its id, with DUP if and only if it is a copy |
| `EndToEnd.SentElementsAreNormal` | AsyncClient/src/lib/PublishManager.cpp:97-119 | every PUBLISH of every client run meets that theorem's conditions on flags, and DUP marks copies |
| `EndToEnd.ClientBytes` | AsyncGateway/src/lib/Messages.cpp:715-720 | absorb recovers flags, topic id, message id and data from the client's bytes |
| `EndToEnd.SerializedIsRead` | AsyncGateway/src/lib/Messages.cpp:1722-1742 | a standard reader recovers every field of a serialised PUBLISH |

## Left out

- Sockets, TLS, UDP, serial devices, thread creation, configuration files, lights and logging: I/O; they appear as parameters and steps.
- RingBuffer, LogMonitor and wildcard matching of topics: they have no clean specification, and the gateway does not call the matching.
- `TopicIdMap.TopicIdMap.AddEntry`: the source reads the key behind the end of its map; the model compares with the greatest key, and the limit is at least 1.
- `PublishManager.PublishManager.RemoveElement`: the intended unlink, not the coded one, which `ElementList.ElementList.Remove` models and `LinkRuns.PublishListExactly` compares; that freed memory can be used again is not modelled.
- `RetryList.Manager.TimeoutCheck`: the intended unlink likewise; `LinkRuns.RequestListExactly` says when the coded one gives the same.
- `PublishManager.PublishManager.Transmit`: the connect() before a PUBLISH is sent, which sends nothing while the client is connected.
- `TaskManager.TaskManager.Round`: what a callback publishes is a parameter, the number it leaves unfinished.
- `RetryList.Manager.RegisterTopic`: the lookup in the topic table before it, and responceRegister, are not modelled.
- `EventQue.EventQue.Wait`: blocking is a precondition that the semaphore can be taken; the semaphore starts at 0, though the source's default constructor leaves it unset.
- `GatewayControl.GatewayControlTask.PublishDown`: the queue of messages for sleeping clients is left out; its flush never removes a message and so would not end. For a topic of two characters the id is what the source reads from the string object, a parameter.
- `GatewayControl.GatewayControlTask.SnWillTopic`: a WILLTOPIC without a flag byte, whose length the source would take below 0.
- `GatewayControl.GatewayControlTask.SnUnsubscribe`: the topic id of a predefined topic is a parameter, since the source reads it before it has copied the message.
- `GatewayControl.GatewayControlTask.SnConnect`: ClientNode holds its registry and id maps as values, not as objects; sharing of pointers is not modelled.
- `GwProxy.GwProxy.Connect`: the build for XBee, which searches for its gateway; unwritten bytes of the buffer read as 0; the callback after CONNACK is not modelled.
- `Payload.Payload.GetBufferPos`: index 255, on which the 8-bit loop counter never ends, is excluded; that reading a small negative number changes its byte in the buffer is not modelled.
- `NetworkXBee.Network.ReadApiFrame`: that bytes are written behind the end of the buffer is recorded, not what they destroy; a byte read before anything arrived counts as no START.
- `RemainingLength.RemainingLength.DecodeLength`: at most four digits, the size of the source's array.
- Messages with a long header (over 255 bytes, payloads over 128): the source allocates with an 8-bit length and the client places the type one byte late.
- Liveness: which suspended publishes are released when, and whether a client ever connects.
- Advertise, GWINFO and time broadcasts, and the PINGREQ timer of the client: they would only add easy members.
- Concurrency inside a handler: a handler and each half of a task's loop is one atomic step.
