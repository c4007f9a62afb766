# Meshtastic for Zephyr: a Dafny model of the mesh delivery protocol

This project models the delivery core of the Meshtastic module for Zephyr and proves what that core
promises over whole runs: networks of any size and topology, any interleaving of timers and threads,
any byte stream. `dafny verify dfyconfig.toml` checks everything.

| file | models |
|---|---|
| `Options.dfy` | missing values, error results, ring index steps |
| `Reliable.dfy`, `ReliableRuns.dfy`, `ReliableReports.dfy` | acknowledgement tracking: the pending table, its retry timer, its guarantees over runs, and which step leads to which report |
| `DupCache.dfy` | the ring of recently accepted (source, id) pairs |
| `Rings.dfy` | bounded queues in an array, generic |
| `Mesh.dfy` | a network of nodes taking atomic steps over a medium that may lose and reorder: send, receive, relay, acknowledge, re-acknowledge, retry, downlink injection, re-initialisation |
| `MeshRules.dfy` | what one node does in one step, rule by rule, every condition and field written out |
| `MeshNode.dfy` | one node as an object updated in place, each method proved equal to the step used in network runs |
| `MeshQuiescence.dfy` | a weight of the network that pays for every transmission still to come |
| `MeshCopies.dfy`, `MeshFlood.dfy` | an induction principle over all copies of all frames; hop accounting, MQTT loop freedom, duplicate windows |
| `MeshAck.dfy`, `MeshAckLimits.dfy` | "acknowledged means decoded by the destination", and runs outside its assumptions in which it fails |
| `MeshDelivery.dfy` | packets, acknowledgements and broadcasts get through over any path of relays within the hop limit, a lost first transmission included |
| `Channels.dfy`, `Wire.dfy` | channel table, key expansion, hash index; header, flags, encryption, trial decryption |
| `PublishQueue.dfy` | the bounded queue of packets for the MQTT broker |
| `StreamFraming.dfy`, `PhoneQueue.dfy`, `Handshake.dfy` | the serial StreamAPI, the phone client queue, the configuration handshake |
| `NodeDb.dfy`, `Airtime.dfy`, `Radio.dfy` | least-recently-heard node table, rotating airtime buckets, the threads that share the radio |

State that the C code updates in place is a class whose methods are proved equal to functions on its
abstract value; the guarantees are lemmas about runs of those functions. Values that only record what
happened (which packets were born, decoded, accepted, uplinked) are marked as history and steer nothing.

## What does not hold, and exactly when it does

- **Acknowledgements are matched by id only.** A node reports a packet as acknowledged on any ROUTING
  packet with the right request id (`src/meshtastic_reliable.c:223`). `MeshAck.AckedMeansDecoded` shows that
  the report is true in every run in which no (source, id) pair is used twice, whoever chose the ids,
  applications send in their own node's name and leave ROUTING packets to the stack, and nothing is injected; `MeshAck.HonestTrusted` shows that ids
  from the stack are like that until a node runs out of them. `MeshAckLimits` gives a run with a false
  report for each way out of these conditions: an application's own ROUTING packet (`ForgedAck`), a
  re-initialised node that hands out its ids again (`StaleAck`), a caller's id that is in use (`ReusedId`),
  a packet sent in another node's name (`BorrowedName`), and a downlink that a gateway tracks under another node's id (`InjectedId`).
- **Key lookup can recurse for ever** when the slot at the primary index is a SECONDARY without key
  material. `Channels.KeyLookupDivergesIff` and `UpdateDivergesIff` say exactly when.
- **Cached hashes of inheriting slots go stale** when the primary key changes or goes away
  (`Channels.StaleHash`); `Channels.InheritedHashCurrentIff` says exactly when they stay current, from the
  update alone.
- **Small serial rings can stall, both ways.** `src/Kconfig.serial` allows receive rings from 64 and transmit
  rings from 256 bytes on, but a frame takes up to 516: a smaller receive ring can fill up with an
  unfinished frame (`StreamFraming.FullRingStallsIff`), and on a smaller transmit ring a long frame is popped
  and put back for ever (`PhoneQueue.PumpProgressesIff`).
- **Lower slots can steal a frame.** A packet decodes on the slot it was sent on exactly when no
  lower-numbered slot with the same hash accepts the bytes (`Wire.WireRoundTrip`); a slot with the same
  name and key does (`Wire.SameKeySteals`, `StolenFrame`).
- **The result of stopping reception is ignored** (`src/meshtastic_radio.c:120`). If the driver refuses, the
  worker calls lora_config and lora_send all the same (`Radio.RefusedStop`); they are reached with reception
  active exactly then (`Radio.ClashIffStopRefused`).
- **Start-up can race the receive thread.** The thread is started before start-up arms reception
  (`src/meshtastic_radio.c:254-265`). If it arms first and the driver refuses the second call, the armed flag
  is wrong until the next transmission (`Radio.FlagTrueIffRaceFree`, `StartupRace`, `TransmissionHeals`).
- **The configured hop limit is not checked.** Above 7 some acknowledgements go out with no hops at all
  (`MeshFlood.AnswersReachIff`).
- **A failed encoding can cost a queued packet.** A full publish queue gives up its oldest entry before the new
  envelope is encoded (`PublishQueue.Publisher.QueueUplink`, `LoseOldest`).

## Model

| member | source | states |
|---|---|---|
| `ReliableRuns.OutcomesConserved` | src/meshtastic_reliable.c:140-323 | in every run, accepted packets = acknowledged + refused + timed out + dropped by a reset + still pending |
| `ReliableRuns.TimeoutOnlyAfterAllRetries` | src/meshtastic_reliable.c:270-323 | a time-out comes only after exactly the configured number of retransmission attempts, all of the frame first sent, and not before (retransmissions + 1) intervals have passed |
| `ReliableRuns.SettledInTime` | src/meshtastic_reliable.c:270-323 | in every run in which the handler is never more than `late` ms late, no packet is still pending more than (retransmissions + 1) * (interval + jitter + late) after it was accepted |
| `ReliableRuns.NoForgottenRetry` | src/meshtastic_reliable.c:90-105 | in every reachable state each pending entry has a wake-up queued or armed no later than its due time (or at once if overdue), also after replies that do not re-arm the timer |
| `ReliableRuns.NothingDueAfterWork` | src/meshtastic_reliable.c:283-315 | after the handler ran, every remaining entry is due strictly later and the timer is set strictly ahead |
| `ReliableRuns.RunKeeps` | src/meshtastic_reliable.c:140-323 | table, timer and the story told by the emitted events agree after every run |
| `ReliableRuns.EventsJustified` | src/meshtastic_reliable.c:140-323 | every event of every run is explained by the open attempt on its slot: a free slot before an acceptance, the same frame and an attempt left for a retransmission, the same packet for a report |
| `ReliableReports.ReportsMatchReplies` | src/meshtastic_reliable.c:113-138 | in every run, every reported acknowledgement goes back to a ROUTING packet heard with that request id and no error, every reported refusal to one with an error |
| `ReliableReports.ReplyReports` | src/meshtastic_reliable.c:207-251 | a reply about a pending packet frees its first entry and is reported for what it is |
| `ReliableReports.OtherPacketsIgnored` | src/meshtastic_reliable.c:207-228 | no other packet changes or reports anything |
| `ReliableReports.WantedIsTracked` | src/meshtastic_reliable.c:154-205 | a unicast that asks for an acknowledgement takes the first free slot with all its retries ahead |
| `ReliableReports.UnwantedIsNotTracked` | src/meshtastic_reliable.c:164-173 | a packet that does not ask, a broadcast, one to oneself, a ROUTING packet or one without an id is not tracked |
| `ReliableReports.ResentWasWanted` | src/meshtastic_reliable.c:164-173 | in every run, whatever is sent again was handed over by a send that asked for an acknowledgement |
| `ReliableReports.RearmExact` | src/meshtastic_reliable.c:90-105 | the timer is set to the earliest due time, or to now if that is past |
| `ReliableReports.EveryDelayDrawn` | src/meshtastic_reliable.c:56-66 | every delay of the allowed range is drawn for some random number |
| `Reliable.Config.Delay` | src/meshtastic_reliable.c:56-66 | a retry delay lies between the interval and the interval plus the jitter |
| `Reliable.EarliestDue` | src/meshtastic_reliable.c:90-105 | the minimum of the pending due times |
| `Reliable.Table.Rearm` | src/meshtastic_reliable.c:90-105 | re-arms for the earliest due entry and changes nothing else |
| `Reliable.Table.TrackPacket` | src/meshtastic_reliable.c:154-205 | takes the first free slot for a trackable unicast, otherwise leaves table and timer alone |
| `Reliable.Table.OnRouting` | src/meshtastic_reliable.c:207-251 | frees the first slot waiting for the request id and reports ACKED or NO_ACK; reports whether one was found |
| `Reliable.Table.WorkSlot` | src/meshtastic_reliable.c:284-305 | one due slot: a retransmission with a new due time, or a time-out that frees the slot |
| `Reliable.Table.Work` | src/meshtastic_reliable.c:270-323 | sweeps all slots, re-arms, reports time-outs after the sweep |
| `Reliable.Table.Clear` | src/meshtastic_reliable.c:140-152 | empties the table and cancels the timer |
| `Reliable.Table.CountPending` | src/meshtastic_reliable.c:253-268 | the number of occupied slots |
| `DupCache.Cache.Check` | src/meshtastic_router.c:32-42 | finds a pair exactly when some cell holds it |
| `DupCache.Cache.Remember` | src/meshtastic_router.c:44-49 | overwrites the oldest cell and moves on |
| `DupCache.Cache.Offer` | src/meshtastic_router.c:250-261 | the filter in front of both receive paths: accepted exactly when unknown, and then remembered |
| `DupCache.AcceptRemembers` | src/meshtastic_router.c:44-49 | the ring stays equal to the last N accepted pairs, oldest first |
| `DupCache.NoRepeatWithinWindow` | src/meshtastic_router.c:32-49 | whatever is offered, any N + 1 consecutive accepted pairs are pairwise distinct |
| `MeshQuiescence.StepCost` | src/meshtastic_router.c:92-114 | every reception, relay, acknowledgement, re-acknowledgement and retransmission lowers the network's weight by what it sends and receives |
| `MeshQuiescence.OnDecodedCost` | src/meshtastic_routing.c:59-133 | an acknowledgement ranks strictly below the packet it answers, so chains of acknowledgements end |
| `MeshQuiescence.TimerCost` | src/meshtastic_reliable.c:283-313 | each retransmission is paid for by an attempt the entry gives up |
| `MeshQuiescence.Quiescence` | src/meshtastic_router.c:170-289 | in any network, once applications and gateways stop sending, all transmissions and receptions of any run together are bounded by the weight at that moment |
| `MeshCopies.StepAll` | src/meshtastic_router.c:211-453 | any property of frames kept by relaying and true of acknowledgements and originals holds of every copy on the air, in a table or queued for the broker |
| `MeshFlood.HopAccounting` | src/meshtastic_router.c:103-106 | in every run, whatever other senders do, every copy anywhere of a frame that started with hop_start = hop_limit has hop_limit = hop_start minus its relays; frames whose hop_start is left to the stack, and all acknowledgements, start like that |
| `MeshFlood.CopiesAreOriginals` | src/meshtastic_router.c:92-114 | in every run whatsoever, every copy on the air, in a table or queued for the broker equals the frame first put on the air but for the hops its relays took |
| `MeshFlood.OriginalsOnRecord` | src/meshtastic_router.c:92-114 | where ids are unique, that frame is the one its source put on record under the copy's (source, id) |
| `MeshFlood.ReturnBudget` | src/meshtastic_routing.c:27-57 | the acknowledgement of a copy that took r relays goes out with max(r, min(r + 2, own limit)) hops, or with the whole own limit when its hop_start is 0; always 1..7 and at least r |
| `MeshFlood.AnswersReachIff` | src/meshtastic_routing.c:27-57 | answers to all copies there can be have hops enough for the way back if and only if the configured hop limit is 1 to 7 |
| `MeshFlood.AnswersComeBack` | src/meshtastic_routing.c:27-115 | in every run, whoever hears a copy of a frame that started with hop_start = hop_limit answers it with hops enough for the way back |
| `MeshFlood.MqttLoopFreedom` | src/meshtastic_router.c:334-370 | in every run, every frame on the air or in a retransmission table that descends from a downlink carries VIA_MQTT, and no gateway queues a flagged frame or a descendant of a downlink for the broker |
| `MeshFlood.ReceiveAccounts` | src/meshtastic_router.c:250-288 | a reception relays or delivers only what it accepts in that very step, as an unknown pair, and exactly as recorded; anything else it sends is its own |
| `MeshFlood.InjectAccounts` | src/meshtastic_router.c:340-408 | the same of a downlink |
| `MeshFlood.AcceptedOncePerWindow` | src/meshtastic_router.c:32-49 | in every run, LoRa and MQTT arrivals mixed, no pair repeats among N + 1 consecutive acceptances of a node |
| `MeshFlood.AtMostOncePerWindow` | src/meshtastic_router.c:250-288 | in every run, two steps in which a node relays or delivers the same pair, with no re-initialisation of it in between, have at least N acceptances between them |
| `MeshFlood.DuplicateOnlyReacks` | src/meshtastic_router.c:69-90 | a known pair is neither delivered nor relayed, and the filter does not change; at most one acknowledgement of it goes out |
| `MeshRules.DeliveryRule` | src/meshtastic_router.c:424-440 | the application gets a packet exactly the first time it is heard and readable, addressed to the node or to all, on port 1, 3, 4, 5 or 67 or with no port filter |
| `MeshRules.RelayRule` | src/meshtastic_router.c:184-208 | a rebroadcasting node passes on, one hop shorter, exactly what it hears first that is neither from nor to it, has hops left, and has an id if it is a broadcast |
| `MeshRules.IgnoredRule` | src/meshtastic_router.c:240-248 | a packet over MQTT does nothing at all where the build ignores those |
| `MeshRules.AckRule` | src/meshtastic_routing.c:71-133 | one answer, field by field, to exactly what asks this node for it; an answer to a text, and no other, asks to be answered itself |
| `MeshRules.ReceiveAckRule` | src/meshtastic_router.c:69-90 | that answer goes out on a first reception and on every later one that asks for it, and nothing else but the relay does |
| `MeshRules.SettleRule` | src/meshtastic_routing.c:117-133 | a reply acted upon frees its first entry and is reported as acknowledgement or refusal |
| `MeshRules.UnsettledRule` | src/meshtastic_routing.c:117-133 | no other reception touches the table or is reported |
| `MeshRules.UplinkRule` | src/meshtastic_mqtt.c:1074-1092 | with the gates open, exactly what is first heard from others and what is answered goes to the broker, unless flagged |
| `MeshRules.SendRule` | src/meshtastic.c:389-475 | a send is refused, or heard as the caller's request with every open field filled in; a waiting caller's own packet goes to the broker |
| `MeshRules.AllocRule` | src/meshtastic.c:137-146 | an id left to the stack is taken off the wrapping 32-bit counter, which skips 0; a caller's id is not |
| `MeshRules.TrackRule` | src/meshtastic.c:467-472 | what asks another node for an acknowledgement waits in the first free slot |
| `MeshRules.NotTrackedRule` | src/meshtastic.c:467-472 | nothing else does |
| `MeshRules.RetryRule` | src/meshtastic_reliable.c:283-313 | a due entry with attempts left is heard again as first sent |
| `MeshRules.ExpiryRule` | src/meshtastic_reliable.c:283-297 | one without attempts is given up and reported, one not due is left alone |
| `MeshRules.DownlinkRule` | src/meshtastic_router.c:347-370 | exactly the new downlinks not for this node, with hops left or encrypted, go on the air, flagged; an encrypted one without hops stays without |
| `MeshRules.DownlinkDeliveryRule` | src/meshtastic_router.c:372-408 | the application gets a new downlink it can read and wants, unless relaying it was tried and failed |
| `MeshAck.AckedMeansDecoded` | src/meshtastic_reliable.c:207-251 | in every run in which no (source, id) is used twice, applications send in their own node's name and no ROUTING packets, and nothing is injected, a packet reported as acknowledged was sent by the reporter and decoded, unchanged, by exactly the destination named |
| `MeshAck.HonestTrusted` | src/meshtastic.c:137-146 | ids from the stack are never used twice until some node has handed out 2^32 - 1 of them |
| `MeshAck.HonestReportsTrue` | src/meshtastic_reliable.c:207-251 | so with ids from the stack every report is true until then |
| `MeshAck.SettleSound` | src/meshtastic_routing.c:117-133 | whatever routing reply settles an entry was sent by that entry's destination, although nobody checks, and the report it leads to is true |
| `MeshAck.StepKeeps` | src/meshtastic_routing.c:71-133 | every step that uses no id twice keeps the network invariant: traced frames, justified acknowledgements, re-initialisation included |
| `MeshAck.RunKeeps` | src/meshtastic_routing.c:71-133 | hence every such run does |
| `MeshAckLimits.ForgedAck` | src/meshtastic_reliable.c:223-228 | a run in which an application's own ROUTING packet makes another node report a false acknowledgement |
| `MeshAckLimits.StaleAck` | src/meshtastic.c:261-274 | a run in which a late acknowledgement from before a re-initialisation is taken for the new packet 1 |
| `MeshAckLimits.ReusedId` | src/meshtastic.c:409-411 | a run in which a caller's own id is one a late acknowledgement still names |
| `MeshAckLimits.BorrowedName` | src/meshtastic.c:406-411 | the same with an id that is new, but in another node's name |
| `MeshAckLimits.InjectedId` | src/meshtastic_router.c:347-370 | a run in which a gateway tracks an injected packet and takes an acknowledgement of its own packet for it |
| `MeshDelivery.Carried` | src/meshtastic_router.c:170-209 | willing relays on a route no longer than the hop limit hand a packet, broadcasts included, on to its end, and only their caches change |
| `MeshDelivery.DestinationAnswers` | src/meshtastic_routing.c:71-133 | the destination decodes the packet and answers it, seen before or not, to its sender and with hops enough for the way back |
| `MeshDelivery.AnswerSettles` | src/meshtastic_reliable.c:207-251 | an unseen acknowledgement makes the sender report exactly the packet it waits for |
| `MeshDelivery.PathAcknowledges` | src/meshtastic_routing.c:27-133 | from every network state, over any relay path within the hop limit and any path back within max(r, min(r + 2, own limit)) hops, in some run the destination reads exactly the packet sent, its application gets it if it is new and wanted, and the sender reports it as acknowledged |
| `MeshDelivery.RetryAcknowledges` | src/meshtastic_reliable.c:270-323 | the same when nobody hears the first transmission, as long as a retransmission is left |
| `MeshDelivery.BroadcastReaches` | src/meshtastic_router.c:170-209 | over any path of willing relays within the hop limit a broadcast is passed on by each of them, and read and delivered at the end |
| `MeshNode.Router.constructor` | src/meshtastic.c:261-274 | a node starts with id counter 1, an empty cache, an empty table and the configured hop limit, unchecked, or the default for 0 |
| `MeshNode.Router.AllocateId` | src/meshtastic.c:137-146 | hands out the wrapping 32-bit counter, never 0 |
| `MeshNode.Router.PrepareFrame` | src/meshtastic.c:389-427 | defaults for source, id, hop limit and hop start, as in network runs |
| `MeshNode.Router.SendPacket` | src/meshtastic.c:451-475 | build, transmit, uplink own packets, track: the network's send step |
| `MeshNode.Router.OnDecodedPacket` | src/meshtastic_routing.c:117-133 | settles, then acknowledges what asks for it: the network's step |
| `MeshNode.Router.SniffRebroadcast` | src/meshtastic_router.c:170-209 | relays exactly the frames the relay rule names, one hop shorter |
| `MeshNode.Router.ReackDuplicate` | src/meshtastic_router.c:69-90 | acknowledges a readable duplicate addressed to us again and does nothing else: the network's duplicate step |
| `MeshNode.Router.HandleInbound` | src/meshtastic_router.c:410-453 | delivery, uplink, acknowledgement and relay, as in the network's step: what is sent, kept and delivered |
| `MeshNode.Router.ProcessLoraRx` | src/meshtastic_router.c:211-289 | the network's receive step: what is sent, kept and delivered |
| `MeshNode.Router.RelayDownlink` | src/meshtastic_router.c:347-370 | relays a downlink flagged VIA_MQTT, decoded or encrypted, refuses one without a payload, and tells failure |
| `MeshNode.Router.InjectDownlink` | src/meshtastic_router.c:319-408 | the network's downlink step, behind the same duplicate filter, for decoded, encrypted and missing payloads |
| `MeshNode.Router.QueueUplink` | src/meshtastic_mqtt.c:603-632 | queues nothing that carries VIA_MQTT |
| `PublishQueue.Publisher.QueueUplink` | src/meshtastic_mqtt.c:603-694 | behind the gates, a full queue gives up its oldest entry, then the packet is appended if its envelope encodes; the queue always is the newest part of everything queued, none of it flagged |
| `PublishQueue.LoseOldest` | src/meshtastic_mqtt.c:662-682 | a queue of any size, filled, then offered a packet whose envelope does not encode: the oldest entry is gone and nothing came in |
| `PublishQueue.Publisher.Drain` | src/meshtastic_mqtt.c:358-391 | publishes the oldest entries in order, up to the limit, and keeps the rest |
| `MeshNode.Router.TimerWork` | src/meshtastic_reliable.c:270-323 | retransmits the due frames and reports the exhausted ones: the network's retry step |
| `Channels.XorBytes` | src/meshtastic_channels.c:23-32 | the XOR of all bytes |
| `Channels.Expand` | src/meshtastic_channels.c:72-101 | key material stands for a key of 0, 16 or 32 bytes; full-length material for itself |
| `Channels.ExpandRule` | src/meshtastic_channels.c:39-101 | [1] is the well-known key, [n] ends in 0x01 + (n - 1), [0] and nothing are no key, and other material is filled up with zeros to 16 or 32 bytes |
| `Channels.KeyRule` | src/meshtastic_channels.c:49-101 | which slots have a key and which key, inheritance and errors included |
| `Channels.HashRule` | src/meshtastic_channels.c:103-120 | XOR of name and key bytes, LongFast standing in for no name, 0 without a key |
| `Channels.GetKey` | src/meshtastic_channels.c:49-101 | a successful lookup is of an enabled slot and gives 0, 16 or 32 bytes |
| `Channels.KeyLookupDivergesIff` | src/meshtastic_channels.c:49-70 | the recursion never returns exactly for an inheriting slot of a table whose primary slot inherits; otherwise two calls suffice |
| `Channels.UpdateDivergesIff` | src/meshtastic_channels.c:229-251 | an update, demotion loop included, hangs exactly when it stores an empty-key SECONDARY at the primary index; otherwise no lookup goes deeper than two calls and the result is the one modelled |
| `Channels.SetSlotKeeps` | src/meshtastic_channels.c:229-251 | every other update keeps the table consistent |
| `Channels.SetSlotExactly` | src/meshtastic_channels.c:229-251 | the whole table after an update: the cleaned slot, the old primary as SECONDARY, everything else as it was |
| `Channels.CleanRule` | src/meshtastic_channels.c:122-138 | without settings a slot is blank and disabled, and the name Default is dropped |
| `Channels.DemoteOthersKeeps` | src/meshtastic_channels.c:140-152 | after the demotion loop no other slot is PRIMARY and every touched hash is current |
| `Channels.AlwaysConsistent` | src/meshtastic_channels.c:154-251 | from the defaults on, after any updates: PRIMARY only at the primary index, cached hashes of slots with their own key equal to recomputation |
| `Channels.DefaultHash` | tests/shell/src/commands.c:32 | the default primary channel is LongFast with hash 0x08 |
| `Channels.DefaultsRule` | src/meshtastic_channels.c:154-184 | slot 0 is the public channel with the well-known key and both MQTT directions open, the rest is blank |
| `Channels.DisabledHashZero` | src/meshtastic_channels.c:103-120 | a disabled slot's cached hash is 0 |
| `Channels.InheritedHashCurrentIff` | src/meshtastic_channels.c:122-138 | an inheriting slot's hash survives an update of another slot exactly when the slot hashes alike with the primary key of before and the one the update brings, a missing key included |
| `Channels.StaleHash` | src/meshtastic_channels.c:122-138 | two updates of the default table after which an inheriting slot's cached hash is 0x08 and its recomputed one 0 |
| `Channels.ResolvedIsUsable` | src/meshtastic_channels.c:292-324 | the send slot exists, and is enabled unless it is the primary fallback |
| `Channels.ResolveRule` | src/meshtastic_channels.c:292-324 | the order of the choices: given index, hash, peer, primary |
| `Channels.ChannelTable.constructor` | src/meshtastic_channels.c:154-184 | the defaults, hash included |
| `Channels.ChannelTable.GenerateHash` | src/meshtastic_channels.c:103-120 | XOR of name and key, 0 without a key |
| `Channels.ChannelTable.FixupSlot` | src/meshtastic_channels.c:122-138 | cleans one slot and refreshes its hash |
| `Channels.ChannelTable.DemoteOtherPrimary` | src/meshtastic_channels.c:140-152 | exactly the demotion specified, other slots and hashes untouched |
| `Channels.ChannelTable.SetSlotAt` | src/meshtastic_channels.c:229-251 | the update in place; an index out of range changes nothing |
| `Wire.HeaderRoundTrip` | src/meshtastic_packet.c:414-431 | parsing the 16 header bytes returns every header field |
| `Wire.FlagsRoundTrip` | src/meshtastic_packet.c:549-560 | both hop fields and both flags come back from the flags byte |
| `Wire.HeaderLayout` | src/meshtastic_packet.c:549-563 | where each header field lies, least significant byte first |
| `Wire.FlagsValue` | src/meshtastic_packet.c:553-560 | hop limit + 8 for want_ack + 16 for via_mqtt + 32 * hop start |
| `Wire.RelayTakesOneHop` | src/meshtastic_router.c:92-114 | the relay edit lowers the hop limit by one and touches no other bit of the frame |
| `Wire.RelayDecodes` | src/meshtastic_router.c:92-114 | whoever can read a frame reads the same packet in its relayed copy, one hop shorter |
| `Wire.RelayedDecodes` | src/meshtastic_router.c:92-114 | the same after any number of relays within the hop limit |
| `Wire.RelayedRoundTrip` | src/meshtastic_packet.c:433-569 | a packet built, relayed k times and decoded is the packet sent, k hops shorter, unless a lower slot accepts the bytes |
| `Wire.CryptInverts` | src/meshtastic_packet.c:33-88 | encryption is its own inverse, in clear or keyed |
| `Wire.CryptRule` | src/meshtastic_packet.c:33-88 | with a key, plaintext and ciphertext differ by the keystream of that key and nonce; without one, not at all |
| `Wire.NonceLayout` | src/meshtastic_packet.c:538-540 | packet id, four zero bytes, sender, four zero bytes |
| `Wire.BuildRule` | src/meshtastic_packet.c:509-569 | when a frame is built, of what, and which error says why not |
| `Wire.AcceptsRule` | src/meshtastic_packet.c:202-289 | exactly when a slot opens bytes |
| `Wire.DecodeRule` | src/meshtastic_packet.c:433-487 | too short, a sender not opened, nothing that opens: what a receiver makes of each |
| `Wire.CounterBlocksDiffer` | src/meshtastic_packet.c:538-543 | two counter blocks coincide only for the same sender, the same packet id and the same block number |
| `Wire.BuildInto` | src/meshtastic_packet.c:509-569 | fills the caller's buffer with exactly the built frame, or leaves it alone and reports the error |
| `Wire.TryDecrypt` | src/meshtastic_packet.c:259-289 | the first enabled slot with the hash whose key opens the bytes, or EBADMSG when there is none |
| `Wire.OwnSlotOpens` | src/meshtastic_packet.c:202-252 | the slot a packet was sent on always opens it |
| `Wire.WireRoundTrip` | src/meshtastic_packet.c:433-569 | a built packet decodes to itself, all fields, on its own slot, if and only if no lower slot accepts the bytes |
| `Wire.WireAcross` | src/meshtastic_packet.c:433-569 | the same between nodes whose tables differ, on a slot with the same hash and key |
| `Wire.StandardKeyAcross` | src/meshtastic_channels.c:39-101 | a sender that gives the standard key by its number and a receiver that gives it in full understand each other, either way |
| `Wire.SameKeySteals` | src/meshtastic_packet.c:259-289 | a lower enabled slot with the same hash and key takes every frame away from a higher one |
| `Wire.StolenFrame` | src/meshtastic_packet.c:259-289 | a table and a packet for which it happens |
| `StreamFraming.Encode` | src/meshtastic_serial.c:58-73 | header plus payload, refused above 512 bytes |
| `StreamFraming.EncodeLayout` | src/meshtastic_serial.c:58-73 | 0x94, 0xc3, the length with its high byte first, the payload |
| `StreamFraming.PopRule` | src/meshtastic_serial.c:171-229 | what one step does with the ring, case by case |
| `StreamFraming.Receiver.Feed` | src/meshtastic_serial.c:273-297 | what fits the contiguous room is read and the rest stays in the UART, in order; a full ring discards what the UART holds |
| `StreamFraming.Receiver.Step` | src/meshtastic_serial.c:171-229 | waits, drops one byte or takes one whole frame; everything but waiting shrinks the ring |
| `StreamFraming.Receiver.Work` | src/meshtastic_serial.c:231-259 | steps until it must wait |
| `StreamFraming.Listen` | src/meshtastic_serial.c:231-297 | chunks fed to a ring with room for a chunk above an unfinished frame: exactly the non-empty payloads come out |
| `StreamFraming.ChunkIndependence` | src/meshtastic_serial.c:171-259 | parsing a + b is parsing a, then continuing from its leftover with b |
| `StreamFraming.AnyChunking` | src/meshtastic_serial.c:171-259 | the frames do not depend on where the stream was cut |
| `StreamFraming.FramesRecovered` | src/meshtastic_serial.c:58-73 | encoded frames followed by anything yield their non-empty payloads in order, then what follows |
| `StreamFraming.StreamRoundTrip` | src/meshtastic_serial.c:58-259 | encoded frames in any chunking come back exactly, with nothing left over |
| `StreamFraming.Resynchronises` | src/meshtastic_serial.c:179-228 | garbage without an adjacent start pair never costs a following frame |
| `StreamFraming.GarbageThenFrames` | src/meshtastic_serial.c:179-228 | behind such garbage exactly the non-empty payloads come out |
| `StreamFraming.LeftoverWaits` | src/meshtastic_serial.c:231-259 | the handler stops only where it has to wait |
| `StreamFraming.FullRingStallsIff` | src/meshtastic_serial.c:179-228 | a full ring can be stuck waiting if and only if it is smaller than 516 bytes |
| `Handshake.GeneratedIsPrefix` | src/meshtastic_phoneapi_config.c:126-251 | what was generated since the request is a prefix of the written-out 40-item script, less the variants the store lacks; once idle it is all of it, ends with the completion carrying the request's nonce, and has no other completion |
| `Handshake.EmittedAndRemaining` | src/meshtastic_phoneapi_config.c:126-251 | at any position, emitted and remaining items make up the same script |
| `Handshake.CompleteStore` | src/meshtastic_phoneapi_config.c:126-251 | with a complete store the emitted items are the written-out script up to the position |
| `Handshake.Generator.Request` | src/meshtastic_phoneapi_config.c:253-272 | starts the script over with the request's nonce |
| `Handshake.Generator.Emit` | src/meshtastic_phoneapi_config.c:110-124 | moves on only if the item could be encoded |
| `Handshake.Generator.SkipMissing` | src/meshtastic_phoneapi_config.c:190-229 | passes over missing variants and ends for any set of them |
| `Handshake.Generator.Next` | src/meshtastic_phoneapi_config.c:126-251 | the next available item, or none and the same position after a failed encoding |
| `PhoneQueue.PhoneApi.Enqueue` | src/meshtastic_phoneapi.c:216-244 | appends; a full queue gives up its oldest frame; (tail + count) mod size stays head |
| `PhoneQueue.PhoneApi.PushFront` | src/meshtastic_phoneapi.c:156-171 | prepends; a full queue gives up its newest frame |
| `PhoneQueue.OverflowRules` | src/meshtastic_phoneapi.c:156-244 | enqueuing keeps the newest frames that fit, putting back the oldest |
| `PhoneQueue.PhoneApi.Pop` | src/meshtastic_phoneapi.c:134-154 | the first frame of queue followed by handshake, or nothing and nothing lost |
| `PhoneQueue.PhoneApi.CurrentFrame` | src/meshtastic_phoneapi.c:173-195 | a held frame is returned unchanged until released; staging loses and reorders nothing |
| `PhoneQueue.PhoneApi.Release` | src/meshtastic_phoneapi.c:197-202 | lets go of the held frame only |
| `PhoneQueue.PhoneApi.Reset` | src/meshtastic_phoneapi.c:98-110 | nothing is left to deliver |
| `PhoneQueue.PhoneApi.WantConfig` | src/meshtastic_phoneapi_config.c:253-272 | empties the queue and starts the handshake from its beginning |
| `PhoneQueue.PopAndPutBack` | src/meshtastic_phoneapi.c:134-171 | pop, then push-front, is the identity on the queue and on everything still to come |
| `PhoneQueue.Drive` | src/meshtastic_phoneapi.c:98-244 | whatever is done with the queue, in any order, what was generated since the last request follows the script and ends with the completion that carries that request's nonce |
| `PhoneQueue.Pump` | src/meshtastic_serial.c:120-156 | bytes on the line plus bytes still to come are the same stream before and after: nothing lost, repeated or reordered, the ring never overrun, and filled with as many whole frames as fit |
| `PhoneQueue.PumpProgressesIff` | src/meshtastic_serial.c:120-156 | from an empty ring something is sent for every non-empty stream if and only if the ring holds 516 bytes |
| `NodeDb.Find` | src/meshtastic_nodedb.c:101-110 | the first entry for a node number |
| `NodeDb.Oldest` | src/meshtastic_nodedb.c:112-130 | a least recently heard entry, never the local node's; none only if nothing can be evicted |
| `NodeDb.Database.constructor` | src/meshtastic_nodedb.c:523-542 | the local node takes the first slot |
| `NodeDb.Database.FindEntry` | src/meshtastic_nodedb.c:101-110 | index of the first entry for the number, or the count when there is none |
| `NodeDb.Database.OldestEvictable` | src/meshtastic_nodedb.c:112-130 | the entry heard longest ago among all but the local node, the earliest of equals |
| `NodeDb.Database.OnPacket` | src/meshtastic_nodedb.c:132-164 | the sender's entry carries the new time, in its own slot, a free one or the one heard longest ago; every other entry is untouched |
| `NodeDb.UniqueAndPinned` | src/meshtastic_nodedb.c:132-164 | after any packets, whatever the clock does: node numbers unique, the local node present |
| `NodeDb.LeastRecentlyHeard` | src/meshtastic_nodedb.c:112-164 | a peer heard at second t is present unless at least MAX_NODES - 1 other distinct peers were heard at second t or later |
| `NodeDb.HearRule` | src/meshtastic_nodedb.c:132-164 | after any run, one more packet: the sender is in with its time, nobody else comes in, and whoever goes was in a full table, not local, and heard no later than any other |
| `Airtime.Accounting.LogAirtime` | src/meshtastic_airtime.c:48-74 | adds to the current bucket or buckets |
| `Airtime.Accounting.TickSecond` | src/meshtastic_airtime.c:114-138 | advances the counter and empties a bucket that begins a new period |
| `Airtime.Accounting.Sums` | src/meshtastic_airtime.c:85-112 | the 32-bit sums of the buckets |
| `Airtime.BucketsAreTheLog` | src/meshtastic_airtime.c:36-138 | for every interleaving of logs and ticks before the counter wraps, the channel sum is all that was logged in this and the five preceding 10-second periods and the transmit sum all that was sent in this and the 59 preceding minutes, modulo 2^32 |
| `Radio.OneAtATime` | src/meshtastic_radio.c:104-175 | in every interleaving of start-up, transmit worker and receive thread at most one thread is inside, and a frame is sent at most TX_BUSY_RETRIES + 1 times |
| `Radio.NeverClashes` | src/meshtastic_radio.c:104-175 | while stops are obeyed, lora_config and lora_send are never reached with async reception active, in any interleaving |
| `Radio.ClashIffStopRefused` | src/meshtastic_radio.c:116-148 | they are reached with reception active if and only if the driver has refused to stop it, once the worker is past its next call |
| `Radio.RefusedStop` | src/meshtastic_radio.c:120 | a run in which that happens |
| `Radio.StepLocked` | src/meshtastic_radio.c:77-175 | each statement keeps the semaphore discipline; a busy result reported means all attempts were used |
| `Radio.FlagTrueIffArmsAccepted` | src/meshtastic_radio.c:77-90 | the armed flag equals the driver's state wherever nobody is changing it, if and only if no thread was refused for arming a reception already active |
| `Radio.FlagTrueIffRaceFree` | src/meshtastic_radio.c:206-268 | while stops are obeyed, if and only if start-up was not refused for arming second |
| `Radio.TransmissionHeals` | src/meshtastic_radio.c:114-154 | after any history, a transmission whose stop is obeyed makes the flag right, for as long as stops are obeyed |
| `Radio.StartupRace` | src/meshtastic_radio.c:254-265 | a run that ends with reception active and the flag cleared |
| `Radio.TransmitLoop` | src/meshtastic_radio.c:132-144 | the busy loop: stops at the first answer that is not busy or after all retries, and makes the worker's steps |
| `Radio.NoSendAfterRefusedConfig` | src/meshtastic_radio.c:131-144 | in every interleaving, a frame whose lora_config was refused is not sent at all |
| `Radio.TransmissionCompletes` | src/meshtastic_radio.c:104-175 | undisturbed, a frame is sent once and reception is on again |
| `Radio.DeafRadioRecovers` | src/meshtastic_radio.c:222-232 | undisturbed, the receive thread arms a deaf radio |

## Left out

- Network runs take each router, send and timer operation as one atomic step; unlocked races on the duplicate cache and the id counter are not modelled.
- In network runs a frame either decodes to the data it was sent with or does not decode at all; that a wrong key could accept foreign bytes is covered by the channel and wire modules only.
- In network runs timers may run at any time and with any delay draws; when they do run is the subject of `ReliableRuns`.
- Hop fields of downlinks are taken to be at most 7; the code does not check them.
- Drivers, kernel, PSA crypto and nanopb are parameters: a keystream function, an encode/decode pair assumed inverse, driver answers chosen freely.
- `Reliable.Slot` marks a free slot by its own constructor where the code uses id 0; ids and times are unbounded integers there, as 64-bit uptime does not wrap in practice.
- MeshAck.AckedMeansDecoded: not stated for runs with downlinks, application-made ROUTING packets, borrowed names or an id used twice; `MeshAckLimits` has a false report for each.
- MeshDelivery.PathAcknowledges: states that an acknowledging run exists; which relays hear what depends on radio timing the code does not fix, so no statement is made that it must happen.
- Handshake.GeneratedIsPrefix: is about generation; a config frame pushed back into a full queue can later be dropped by overflow.
- MeshNode.Router.QueueUplink: is the log of what was queued; the bounded ring is `PublishQueue.Publisher`. Topics and envelopes are not modelled.
- Channels.GetKey: requires that the slot at the primary index does not inherit; where it does the call never returns (`KeyLookupDivergesIff`), so there is no result to state.
- Channels.ChannelTable.GenerateHash: the same requirement, for the same reason.
- Channels.ChannelTable.FixupSlot: the same requirement on the cleaned slot, for the same reason.
- Channels.ChannelTable.SetSlotAt: excludes exactly the update that never returns (`UpdateDivergesIff`).
- Radio.NeverClashes: modelled as a state machine over the threads' statements rather than as objects, because the interleaving is the subject; the mutex around the modem configuration is not modelled.
- NodeDb.Database.OnPacket: keeps node number and last-heard time only; user, position, telemetry and snapshot fields are not modelled.
- Airtime percentages as floats: the integer sums behind them are modelled.
- Finite-timeout sends (`src/meshtastic_outbound.c`): the stack uses only "wait for ever" and "do not wait".
- Module auto-replies (NodeInfo, position, telemetry), sensors, BLE, shell, settings, configuration store and the MQTT session: they add traffic, fields or input/output but no harder property.
