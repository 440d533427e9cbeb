# Verification models of a peer-to-peer network stack

This project models three protocol cores of the repository and a baseline, and proves what they are for:

* **The fractal-ring broadcast** of `libgfrp2p`. Nodes sit in rings, the contacts of a ring form the ring above. A message climbs to the top ring and then spreads in every ring along a distributed spanning tree. The handlers of one node are a class (`PeerManager.dfy`); a whole network is a state machine in which messages in flight are delivered in any order (`BroadcastRun.dfy`); `Forwarding.dfy` says message by message what a node sends. Proved for networks of any depth and ring size: every run terminates; how often each ring is started, for any number of leads and any launcher; that every node receives the message when each ring has a lead; and that each ring is started exactly once **if and only if** each ring below the top has exactly one member among its leads and the launcher (with one lead per ring: the launcher leads its district or there is only one ring). `Structure.dfy` shows that the node tables the nodes work out for themselves up to the city level are such a network. `WireFormat.dfy` is the text of a message and its parsing.
* **The RLPx multiplexer** of `pydevp2p`: cutting packets into frames, three queues for each protocol, windows shared by the active protocols, round-robin draining, and a streaming decoder with reassembly buffers. `Multiplexer.dfy` is the object; `MuxRules.dfy` and `DrainOrder.dfy` are its rules in numbers and the order of frames; `Link.dfy` connects a sender and a receiver. Proved: decoding does not depend on how a stream without faults is fragmented, frames of any packets interleaved in any order are put together again, draining conserves and is fair, it never gets stuck (except because of protocol id 0), and any interleaving of queueing and sending delivers the packets of each queue in order and complete. RLP follows appendix B of the Ethereum Yellow Paper, framing the section "Framing" of the RLPx specification.
* **The Kademlia routing table and eviction protocol** of `pydevp2p`, after sections 2.1 to 2.4 of Maymounkov and Mazières (2002). `RoutingTable.dfy` and `KademliaProtocol.dfy` are the objects; `BucketTable.dfy` and `Eviction.dfy` are their specification; `SplitRule.dfy`, `UpdateOutcome.dfy`, `MessageOutcome.dfy` and `BootstrapOutcome.dfy` say of it, in terms of ids and times, when buckets split, how updates end, what each message does and what is stored. Proved: what every operation keeps, exactly when a lookup succeeds, that `neighbours` gives the closest nodes of the whole table although it walks bucket by bucket, that a node leaves the table only after a ping to it stayed unanswered for longer than the time-out, and exactly when an answer counts.
* **The gossip baseline** of `libgfrp2p`. Push mode (`GossipRun.dfy`, `GossipNode.dfy`): bounded cost in a network of any size, what is reached, and full coverage when every sender includes slot 0. Pull mode (`GossipPull.dfy`, `PullRuns.dfy`): a request always finds its data, runs end, whoever was invited to data ends up with it, and with slot 0 everybody does. `NodeIds.dfy` and `IdText.dfy` are the conversions between ids as numbers, fields and text, on which the neighbour tables rest.

Where the source changes state, the model is a class or a method with loops, proved against a specification function; what the source promises is then proved about that function over all inputs or all runs.

## Findings

Properties the code or its documentation suggests and the code does not have, with an input and the exact condition:

* The ring below the launcher is started twice when the launcher's id within its district is not zero (`OtherLauncher.RingStartedTwice` is such a run; `BroadcastCoverage.ExactlyOnceIff` is the condition on a launcher, `LaunchCondition.AlwaysOnceIff` the one on a network).
* With protocol id 0, `pop_all_frames` can send nothing although frames are queued (`ZeroIdGetsStuck`): line 309 of `multiplexer.py` treats id 0 as no protocol. `EmptiedIffRoomy` says for any queues when draining empties them, `ZeroIdEmptiedIff` for a packet for id 0.
* When a frame is faulty, the packets decoded earlier in the same call are lost, so the fragmentation of the stream shows (`FragmentationShows`, `FragmentationVisibleIff`).
* A sequence id that is used again while a packet under it is outstanding swallows a packet and makes the receiver fail (`ReusedIdFaults`: with 2^16 packets behind one; `CountedRunDelivers`: never with fewer). `WholeFrameArrivesIff` and `FirstFrameOpensIff` say what the receiver needs.
* The data for continuation frames is padded to a multiple of 16 in all cases but one (`RemainderIsPadded`, `PacketPaddedIff`, `RemainderNotPadded`).
* The description of `pop_frames_for_protocol` says that two queues share the window half and half. The queues alternate frame by frame, whatever their size (`DrainsInTurn`; `MoreThanHalf` is a normal frame of more than half the window behind a priority frame).
* The decoder drops a packet with an empty payload, because such a packet counts as false at line 546 (`ArrivesIffPayload`).
* `bucket_by_node` compares with `<`, so the id a bucket ends with cannot be looked up (`LookupSucceedsIff`) and may not be added (`AddRaisesIff`); the largest id of all can never be added (`LargestIdIsRefused`).
* The comment of `neighbours` says that sorting by midpoint does not work in edge cases. For buckets that are aligned blocks it always works (`BucketOrderIsDistanceOrder`), although the `break` leaves only the inner loop.
* The description of `update` says live nodes are never removed. `EvictionTrace.AnsweringNodeEvicted` is a run in which a node answers in time and is removed; `PongCreditedIff` says exactly when an answer is credited.
* The two id conversions use different radices (lines 33 to 54 and 126 to 148 of `utils.cpp`): `ConversionsDiffer` is an id they change; `NumberTextRoundTripIff`, `TextNumberRoundTripIff`, `CountsNodesIff` and `TextOrderAgreesIff` say exactly when they undo each other and when they keep the order.
* `receive` overlooks an attached id of one character when it is listed last (`ShortIdIsLost`, `IdsArriveIff`).

## Model

| member | source | states |
|---|---|---|
| SpanningTree.DepthIsLogarithmic | libgfrp2p/src/peer_manager.cpp:199-262 | every order of a ring of n members is reached within as many hops as n - 1 has binary digits |
| RingBalance.ForwardingBalance | libgfrp2p/src/peer_manager.cpp:199-262 | the messages a member forwards lead to exactly the members its own message led to, other than itself, each once |
| RingBalance.StarterLeadsToAll | libgfrp2p/src/peer_manager.cpp:199-262 | what the starter of a ring sends leads to every member |
| RingBalance.RelativeOrderStable | libgfrp2p/src/peer_manager.cpp:215-232 | position and order move together along a hop, one subtraction wraps around, and no member sends to itself |
| RingBalance.UniqueSender | libgfrp2p/src/peer_manager.cpp:199-262 | the member of order c is sent to by exactly one order, c without its leading binary digit |
| Overlay.WithoutRingDropped | libgfrp2p/src/peer_manager.cpp:412-482 | a message that climbed to a level its receiver has no ring of is dropped |
| Forwarding.ClimbingIs | libgfrp2p/src/peer_manager.cpp:412-482 | exactly what a climbing message makes its receiver send: nothing, the broadcasts of its rings, or one message to a contact of the ring above |
| Forwarding.RingMessageIs | libgfrp2p/src/peer_manager.cpp:484-530 | exactly what a message within a ring makes its receiver send: its share of that ring, and for one type the rings below |
| Forwarding.RingSendsAre | libgfrp2p/src/peer_manager.cpp:199-262 | exactly which messages a member sends within a ring, with place, order, type and sender of each, in rising order |
| Forwarding.DownSendsAre | libgfrp2p/src/peer_manager.cpp:432-442 | the broadcasts a node starts are those of each of its rings from a level down, as order 0, the upper rings first |
| BroadcastRun.ReactionBalance | libgfrp2p/src/peer_manager.cpp:412-530 | what one delivery does to the number of messages that lead to a member: it only adds the rings that the receiver starts |
| BroadcastCoverage.RunKeepsInvariant | libgfrp2p/src/peer_manager.cpp:412-530 | in every state of every run, ring broadcasts started by others equal messages delivered plus messages still leading to a member, and the spread is launched at most once |
| BroadcastCoverage.ExactlyOncePerRing | libgfrp2p/src/peer_manager.cpp:244-256 | with one starter for each ring, every ring is started exactly once and each node gets exactly one message in each ring it does not start |
| BroadcastCoverage.StartedTwice | libgfrp2p/src/peer_manager.cpp:454-476 | with one lead for each ring, a launcher of another single-id makes the ring below it start exactly twice |
| OtherLauncher.RingStartedTwice | libgfrp2p/src/peer_manager.cpp:412-530 | a finished run, on the tables of two nodes, whose launcher has single-id one: the ring below it is started twice |
| BroadcastCoverage.RingStartsAre | libgfrp2p/src/peer_manager.cpp:412-530 | how often each ring is started in a finished run, for any number of leads and any launcher: as often as the rings above of its leads, and once more by a launcher that is no lead |
| BroadcastCoverage.EveryRingStartedIff | libgfrp2p/src/peer_manager.cpp:412-530 | every ring is started if and only if each ring below the top has a lead or holds the launcher |
| BroadcastCoverage.ExactlyOnceIff | libgfrp2p/src/peer_manager.cpp:412-530 | every ring is started exactly once if and only if each ring below the top has exactly one member among its leads and the launcher |
| BroadcastCoverage.OneStarterIff | libgfrp2p/src/peer_manager.cpp:412-530 | with one lead for each ring that means one level or a launcher of single-id zero |
| LaunchCondition.AnyContactLaunches | libgfrp2p/src/peer_manager.cpp:87-181 | any contact of the top ring launches the spread in some finished run |
| LaunchCondition.AlwaysOnceIff | libgfrp2p/src/peer_manager.cpp:87-530 | all finished runs of a network start every ring exactly once if and only if, for each contact of the top ring, each ring below has one member among its leads and that contact |
| LaunchCondition.AlwaysOnceWithOneLead | libgfrp2p/src/peer_manager.cpp:87-530 | with one lead for each ring: if and only if there is one level or all contacts of the top ring have single-id zero |
| BroadcastCoverage.RingMessageTotal | libgfrp2p/src/peer_manager.cpp:483-530 | every start of a ring of n members costs n - 1 messages, whoever launched the spread |
| BroadcastCost.RingMessagesInAll | libgfrp2p/src/peer_manager.cpp:483-530 | all rings together cost, for each, its size less one, times its starts |
| BroadcastCost.RunLength | libgfrp2p/src/peer_manager.cpp:87-530 | the exact length of every finished run, worked out from the tables and the launcher: one climbing message per level and the messages within rings |
| BroadcastCost.RingMessagesOnce | libgfrp2p/src/peer_manager.cpp:483-530 | with one starter for each ring the messages within rings are the sizes of the rings, less one for each |
| BroadcastCoverage.EveryNodeReceives | libgfrp2p/src/peer_manager.cpp:87-181 | with a lead for each ring below the top, every node of the network has received the message when none is left in flight |
| BroadcastCoverage.RunDeliversOncePerRing | libgfrp2p/src/peer_manager.cpp:87-530 | the statements above together, for every finished run from the origin's call on |
| BroadcastTermination.StepDecreases | libgfrp2p/src/peer_manager.cpp:412-530 | every delivery leaves strictly less to do |
| BroadcastTermination.RunsTerminate | libgfrp2p/src/peer_manager.cpp:412-530 | no run is longer than a bound computed from the size and depth of the network |
| BroadcastTermination.MessagesCanBeDelivered | libgfrp2p/src/peer_manager.cpp:378-530 | a message in flight can always be handled: a run ends only when none is left |
| NodeTables.NodeTable.GetNodeIdInVector | libgfrp2p/src/node_table.cpp:178-192 | the first position of a node in the peer list, -1 when it is not there |
| NodeTables.NodeTable.GetPeerListSize | libgfrp2p/src/node_table.cpp:194-202 | the last position of the peer list, -1 when there is no such ring |
| NodeTables.NodeTable.GetContactNodes | libgfrp2p/src/node_table.cpp:99-113 | the contacts of a level, none when the level is not in the table |
| NodeTables.NodeTable.IsContactNode | libgfrp2p/src/node_table.cpp:90-97 | a node counts as contact exactly when it has a ring of that level |
| PeerManagers.PeerManager.Send | libgfrp2p/src/peer_manager.cpp:37-84 | a message to another node goes on the wire; one to the node itself is handled at once, as a chain of reactions |
| PeerManagers.PeerManager.Broadcast | libgfrp2p/src/peer_manager.cpp:87-123 | one message to a contact of the node's own ring |
| PeerManagers.PeerManager.BroadcastUp | libgfrp2p/src/peer_manager.cpp:143-181 | one message to a contact of the ring above, for a ring of the node's table that has contacts above; nothing for a level that is not in the table |
| PeerManagers.PeerManager.BroadcastWithinRing | libgfrp2p/src/peer_manager.cpp:184-269 | sends exactly the messages of the spanning tree from the node's order on |
| PeerManagers.PeerManager.OnReceive | libgfrp2p/src/peer_manager.cpp:412-530 | handling a message is a chain of allowed reactions that ends with what is put on the wire |
| NodeSteps.HandlingIsRun | libgfrp2p/src/peer_manager.cpp:37-84 | what the handler of a node does, messages to itself included, is a run of the network model |
| Structure.FormStructure | libgfrp2p/src/app.cpp:43-167 | the tables worked out node by node and district by district are the district ring and, for contacts, the city ring |
| Structure.FormNodeTable | libgfrp2p/src/app.cpp:43-167 | the node table a node fills holds its rings of the network of all nodes, and is valid |
| Structure.FormedRings | libgfrp2p/src/app.cpp:43-167 | the members and contacts of the two rings, place by place: a district lists its nodes in order, the city the contacts of its districts |
| Structure.FormedIsWellFormed | libgfrp2p/src/app.cpp:43-167 | the tables all nodes work out agree and form one hierarchy of rings |
| Structure.FormedIsLedByOne | libgfrp2p/src/app.cpp:43-167 | each district of that network has exactly one lead, the node with number 0 |
| Structure.FormedBroadcastReachesAll | libgfrp2p/src/app.cpp:400-443 | a broadcast on that network that has come to rest has reached every node |
| WireFormat.WireRoundTrip | libgfrp2p/src/peer_manager.cpp:44-69 | parsing what was printed gives the message back, any signed numbers and payloads with commas and bars included |
| WireFormat.PrintIs | libgfrp2p/src/peer_manager.cpp:44-69 | the text of a message, part by part |
| WireFormat.ReadsNumber | libgfrp2p/src/peer_manager.cpp:328-338 | a number is read with either sign or none, up to the first character that is no digit |
| WireFormat.ReadFailsIff | libgfrp2p/src/peer_manager.cpp:328-338 | reading fails if and only if no digit comes first, or second behind a sign |
| WireFormat.SplitAtBar | libgfrp2p/src/peer_manager.cpp:340-347 | the first bar separates ids and payload; without a bar the text is taken for both |
| WireFormat.IdsArriveIff | libgfrp2p/src/peer_manager.cpp:344-360 | the attached ids arrive complete if and only if the one listed last has two characters or more |
| WireFormat.ShortIdIsLost | libgfrp2p/src/peer_manager.cpp:344-360 | two attached ids of which the second, of one character, does not arrive |
| WireFormat.Receive | libgfrp2p/src/peer_manager.cpp:310-363 | parsing field by field, with the positions of the source |
| WireFormat.PrintIds | libgfrp2p/src/peer_manager.cpp:44-50 | the ids joined by commas |
| Frames.CuttingCoversPacket | pydevp2p/devp2p/multiplexer.py:90-123 | cutting works if and only if the window has 64 bytes and the fields are in range; the pieces join to the payload and all frames but the last fill the window |
| Frames.FrameCount | pydevp2p/devp2p/multiplexer.py:90-123 | one frame, or one and as many windows as the excess fills |
| Frames.RemainderIsPadded | pydevp2p/devp2p/multiplexer.py:90-123 | the data for continuation frames is a multiple of 16 in every case but one |
| Frames.PacketPaddedIff | pydevp2p/devp2p/multiplexer.py:90-123 | the payload of every continuation frame is a multiple of 16 in the same cases |
| Frames.RemainderNotPadded | pydevp2p/devp2p/multiplexer.py:90-123 | a payload of 15 bytes left for continuation frames |
| FrameCodec.HeaderFits | pydevp2p/devp2p/multiplexer.py:149-184 | the header data of an encodable frame fits the 16 bytes of the header |
| FrameCodec.FrameRoundTrip | pydevp2p/devp2p/multiplexer.py:421-470 | a frame at the start of a buffer is read back with all fields, body and length |
| FrameLayout.HeaderLayout | pydevp2p/devp2p/multiplexer.py:149-190 | the sixteen bytes of a header: size, list of fields, zeros |
| FrameLayout.FrameBytesLayout | pydevp2p/devp2p/multiplexer.py:185-217 | where header, body, padding and the two blocks of zeros of a frame lie |
| FrameLayout.IntReadBack | pydevp2p/devp2p/multiplexer.py:463-470 | only the one form of a number is read: what was read is what writing the number gives |
| FrameLayout.HeaderAcceptedIff | pydevp2p/devp2p/multiplexer.py:463-487 | a header is accepted if and only if it has a field, the ids have 16 bits and the total 32; and what is read off it |
| FrameLayout.CompleteIff | pydevp2p/devp2p/multiplexer.py:530-542 | when the buffer holds a complete frame |
| FrameCodec.DecodeInPieces | pydevp2p/devp2p/multiplexer.py:530-550 | decoding a prefix and then the rest decodes what decoding the whole does, up to a fault; which of it a call returns is stated by the next three |
| FrameCodec.FragmentationIsInvisible | pydevp2p/devp2p/multiplexer.py:530-550 | a stream faults in fragments if and only if it faults as a whole; without a fault any fragmentation returns the same packets and leaves the same reassembly buffers and leftover bytes |
| FrameCodec.FragmentationVisibleIff | pydevp2p/devp2p/multiplexer.py:542-550 | the packets returned depend on the fragmentation if and only if the stream faults and some fragments before the fault complete a packet |
| FrameCodec.FragmentationShows | pydevp2p/devp2p/multiplexer.py:542-550 | a good frame and a bad one: in one call nothing is returned, in two calls the first packet is |
| FrameCodec.FaultIsFinal | pydevp2p/devp2p/multiplexer.py:530-550 | after a fault the bad frame stays in front of the buffer: every later call fails, too, whatever bytes follow |
| Scheduler.DrainTakesPrefixes | pydevp2p/devp2p/multiplexer.py:354-393 | draining takes frames in order off the front of each queue, no more bytes than the window, and loses none |
| Scheduler.DrainsIffHeadFits | pydevp2p/devp2p/multiplexer.py:369-393 | draining a protocol gives nothing if and only if no head frame fits |
| DrainOrder.DrainsInTurn | pydevp2p/devp2p/multiplexer.py:354-393 | draining, frame by frame: whose turn it is after each frame, and the first head that fits is taken, until none does |
| DrainOrder.PriorityLeavesRoom | pydevp2p/devp2p/multiplexer.py:372-388 | two priority frames follow each other only if no other queue has a frame that fits in between |
| DrainOrder.PriorityComesSoon | pydevp2p/devp2p/multiplexer.py:372-388 | while the next priority frame fits, at least every second frame is one |
| DrainOrder.NormalBeforeChunked | pydevp2p/devp2p/multiplexer.py:372-388 | a chunked frame goes ahead of a normal one that fits only right behind a normal frame |
| DrainOrder.PriorityThenNormal | pydevp2p/devp2p/multiplexer.py:372-388 | a priority and a normal frame that fit together are the first two |
| DrainOrder.NothingMoreFits | pydevp2p/devp2p/multiplexer.py:371-391 | draining goes on until no head fits behind what was taken |
| DrainOrder.MoreThanHalf | pydevp2p/devp2p/multiplexer.py:354-393 | a normal frame of nearly the whole window behind a priority frame |
| MuxState.NeverStuck | pydevp2p/devp2p/multiplexer.py:395-407 | with queues that respect the shares of the activation order some protocol can always send |
| MuxState.StuckExactlyWhenNothingFits | pydevp2p/devp2p/multiplexer.py:395-407 | for any queues, nothing is sent if and only if no head frame of any protocol fits the window |
| MuxRules.WindowShare | pydevp2p/devp2p/multiplexer.py:304-313 | the window for n protocols is the largest multiple of 16 of which n fit 8192 bytes |
| MuxRules.WindowsAre | pydevp2p/devp2p/multiplexer.py:304-313 | how many protocols share the window: the active ones, and the one a packet is cut for, unless its id is 0 |
| MuxRules.RoomToCutIff | pydevp2p/devp2p/multiplexer.py:90-123 | there is room to cut packets if and only if at most 128 protocols share the window |
| MuxRules.QueuedIff | pydevp2p/devp2p/multiplexer.py:334-352 | a packet is queued if and only if its protocol is registered, its fields are in range, the window has 64 bytes, and a priority packet is one frame of at most 1024 bytes |
| MuxRules.QueuedWhere | pydevp2p/devp2p/multiplexer.py:334-352 | which queue the frames go behind, and that nothing else changes but the sequence id |
| MuxRules.RefusedUsesId | pydevp2p/devp2p/multiplexer.py:334-352 | a refused packet uses up its sequence id and changes nothing else |
| MuxRules.TurnMovesOn | pydevp2p/devp2p/multiplexer.py:324-332 | the round robin moves on by one protocol with every call |
| MuxRules.ServedIsNext | pydevp2p/devp2p/multiplexer.py:395-407 | the protocol served is the first, from the one behind the last on, with a head frame that fits |
| MuxRules.RegisteredLast | pydevp2p/devp2p/multiplexer.py:315-322 | a new protocol comes last, is idle and starts with sequence id 0 |
| MuxState.AddKeepsOrder | pydevp2p/devp2p/multiplexer.py:304-352 | queueing keeps the shares for every protocol id but 0 |
| MuxState.PopKeepsOrder | pydevp2p/devp2p/multiplexer.py:395-407 | sending keeps the shares; protocols behind one that goes idle move up |
| MuxDrain.PopAllSendsEverything | pydevp2p/devp2p/multiplexer.py:409-416 | draining everything sends each queued frame once, in order, and leaves all queues empty |
| MuxDrain.ServedWithinOneRound | pydevp2p/devp2p/multiplexer.py:324-407 | with nothing added, a protocol whose head frame fits is served within as many calls as there are protocols |
| DrainCondition.EmptiedIffOrdered | pydevp2p/devp2p/multiplexer.py:409-416 | for any queues, draining everything leaves all queues empty if and only if the active protocols have an order in which each respects its share |
| DrainCondition.EmptiedIffRoomy | pydevp2p/devp2p/multiplexer.py:304-416 | the same by counting: for each k fewer than k active protocols hold a frame larger than the window for k |
| DrainCondition.AddKeepsRoomy | pydevp2p/devp2p/multiplexer.py:304-352 | queueing keeps the queues roomy, for any protocol id but 0, for 0 when it is active, and when all are idle |
| DrainCondition.PopKeepsRoomy | pydevp2p/devp2p/multiplexer.py:395-407 | sending keeps the queues roomy |
| DrainCondition.ZeroIdEmptiedIff | pydevp2p/devp2p/multiplexer.py:304-313 | after a packet for idle protocol 0, draining empties every queue if and only if each window one of its frames exceeds leaves room for it among the others |
| MuxDrain.ZeroIdGetsStuck | pydevp2p/devp2p/multiplexer.py:304-313 | two packets, one of them for protocol 0, of which neither is ever sent |
| Reassembly.CutPacketReassembles | pydevp2p/devp2p/multiplexer.py:470-528 | the frames of a packet that was cut reassemble to that packet |
| Reassembly.WholeFrameArrivesIff | pydevp2p/devp2p/multiplexer.py:489-528 | a whole frame is delivered as its packet if and only if no buffer is open under its sequence id |
| Reassembly.FirstFrameOpensIff | pydevp2p/devp2p/multiplexer.py:489-528 | a first frame opens a buffer if none is open under its sequence id, and is a fault otherwise |
| FrameLayout.ExtendingFaultIff | pydevp2p/devp2p/multiplexer.py:493-501 | a frame for an open buffer is a fault if and only if it announces a total or is too long |
| FrameLayout.ExtendingIs | pydevp2p/devp2p/multiplexer.py:502-507 | otherwise it completes the packet exactly when the payload has the length announced, and no other buffer changes |
| FrameLayout.BeginningFaultIff | pydevp2p/devp2p/multiplexer.py:508-528 | a frame that begins a packet is a fault if and only if its type cannot be read, the total is too small, or a cut packet has no sequence id |
| Reassembly.DecodingIsReceiving | pydevp2p/devp2p/multiplexer.py:432-550 | decoding the bytes of some frames is receiving these frames, with no bytes left over |
| Interleaving.StreamsAreIndependent | pydevp2p/devp2p/multiplexer.py:489-528 | frames in any order: for each protocol and sequence id what is delivered and what stays open is what its own frames give by themselves |
| Interleaving.EachStreamInOrder | pydevp2p/devp2p/multiplexer.py:489-528 | each protocol and sequence id delivers exactly the packets sent through it, in order, and leaves its buffer as it was |
| Interleaving.InterleavingRoundTrip | pydevp2p/devp2p/multiplexer.py:432-550 | packets cut into frames and interleaved in any way that keeps the frames of each protocol and sequence id in order: their bytes decode without a fault or leftover to exactly these packets |
| Interleaving.ArrivesIffPayload | pydevp2p/devp2p/multiplexer.py:542-550 | the frames of a packet bring it to its protocol if and only if its payload is not empty |
| Transfer.ServiceArrives | pydevp2p/devp2p/multiplexer.py:354-528 | one service arrives without a fault, and delivers exactly what it takes off the queues |
| Links.RunKeepsInvariant | pydevp2p/devp2p/multiplexer.py:334-550 | at every moment of a run in which each packet gets a sequence id that is free, what was queued is what was delivered followed by what is still to come |
| Links.DeliversInOrder | pydevp2p/devp2p/multiplexer.py:334-550 | in every such run sending never faults and each queue has delivered a prefix of the packets put into it |
| Links.DrainDeliversEverythingIff | pydevp2p/devp2p/multiplexer.py:409-550 | after draining each queue has delivered exactly the packets put into it, and no buffer holds an unfinished packet, if and only if the queues were roomy: for each k fewer than k protocols hold a frame larger than the window for k |
| Links.TurnRunDrains | pydevp2p/devp2p/multiplexer.py:304-550 | in every run in which protocol id 0 never becomes active behind others, draining at any moment delivers everything |
| Links.WireCarriesService | pydevp2p/devp2p/multiplexer.py:418-550 | decoding the bytes of a service gives its packets and the new buffers |
| Wraparound.CountedRunDelivers | pydevp2p/devp2p/multiplexer.py:334-550 | sequence ids wrap around after 2^16 packets: in every run in which fewer are added to a protocol while a packet they could be confused with is outstanding, sending never faults and each queue delivers in order |
| Wraparound.CountedRunDrainsIff | pydevp2p/devp2p/multiplexer.py:334-550 | and draining at any moment of such a run delivers everything and leaves no buffer open if and only if the queues are roomy |
| IdReuse.ReusedIdFaults | pydevp2p/devp2p/multiplexer.py:334-528 | a run in which 2^16 packets are added behind one that is cut: all but the last of them arrive, the last is swallowed, and the next frame is a fault |
| Multiplexers.Multiplexer.AddProtocol | pydevp2p/devp2p/multiplexer.py:315-322 | the new protocol comes last in the round robin and becomes the one served last |
| Multiplexers.Multiplexer.ProtocolWindowSize | pydevp2p/devp2p/multiplexer.py:304-313 | the window computed with a loop over the protocols is the largest multiple of 16 of which as many as there are protocols sharing it fit 8192 bytes |
| Multiplexers.Multiplexer.AddPacket | pydevp2p/devp2p/multiplexer.py:334-352 | new queues and sequence ids, also when an assertion of the source fails |
| Multiplexers.Multiplexer.NextProtocol | pydevp2p/devp2p/multiplexer.py:324-332 | the next protocol in insertion order, wrapping around |
| Multiplexers.Multiplexer.PopFramesForProtocol | pydevp2p/devp2p/multiplexer.py:354-393 | the frames of one protocol and the queues left |
| Multiplexers.Multiplexer.PopFrames | pydevp2p/devp2p/multiplexer.py:395-407 | the frames of the first protocol of the round robin that has some to send |
| Multiplexers.Multiplexer.PopAllFrames | pydevp2p/devp2p/multiplexer.py:409-416 | all frames, until a call gives none |
| Multiplexers.Multiplexer.Decode | pydevp2p/devp2p/multiplexer.py:530-550 | the loop over the buffer gives the specified packets, buffers and leftover |
| Multiplexers.Multiplexer.DecodeBody | pydevp2p/devp2p/multiplexer.py:432-528 | one frame is taken off the buffer and delivers the packet it completes |
| XorMetric.DisjointBlocksOrdered | pydevp2p/devp2p/kademlia.py:57-61 | XOR keeps apart what disjoint aligned blocks keep apart: one pair of ids decides for all pairs |
| Closest.XorBits | pydevp2p/devp2p/kademlia.py:57-61 | the distance has a one exactly where the binary digits of the ids differ |
| Buckets.DepthIsSharedPrefix | pydevp2p/devp2p/kademlia.py:190-206 | for three or more ids the depth is the length of their longest shared prefix, and no exception is raised |
| Buckets.DepthOfFew | pydevp2p/devp2p/kademlia.py:190-206 | the depth of two ids or fewer, and when it raises an exception |
| Buckets.HalvesOk | pydevp2p/devp2p/kademlia.py:125-140 | splitting gives two aligned buckets that hold exactly the nodes and replacements of the one |
| Buckets.AddToBucketOk | pydevp2p/devp2p/kademlia.py:154-177 | a node that was seen comes last, or the head of a full bucket is returned and nothing changes |
| BucketTable.LookupSucceedsIff | pydevp2p/devp2p/kademlia.py:257-262 | a lookup succeeds if and only if no bucket ends with the id, and then finds the one bucket that covers it |
| BucketTable.AddKeepsTable | pydevp2p/devp2p/kademlia.py:239-255 | adding keeps the table contiguous, aligned, covering all ids, free of duplicates and of the local node, and within the bucket size |
| BucketTable.SplitNarrows | pydevp2p/devp2p/kademlia.py:239-255 | a split narrows the bucket of the node, so that splitting and trying again ends |
| BucketTable.AddStores | pydevp2p/devp2p/kademlia.py:239-255 | adding loses no node and gains exactly the node added |
| BucketTable.AddKeepsOrder | pydevp2p/devp2p/kademlia.py:239-255 | adding and splitting never change which of two other nodes of a bucket was seen less recently |
| BucketTable.AddedIsNewest | pydevp2p/devp2p/kademlia.py:239-255 | a node that was added is the most recently seen one of the bucket it is found in |
| BucketTable.AddRaisesIff | pydevp2p/devp2p/kademlia.py:239-262 | adding raises if and only if the bucket that covers the id, or a half of it that the permitted splits lead to, ends with the id |
| SplitRule.KeptWholeRefuses | pydevp2p/devp2p/kademlia.py:239-255 | a full bucket that does not cover the local node and whose ids share a prefix of whole bytes refuses a newcomer and names its oldest node |
| SplitRule.OtherwiseSplits | pydevp2p/devp2p/kademlia.py:239-255 | any other full bucket is split and the node added to the table with the halves |
| SplitRule.RefusedByKeptWhole | pydevp2p/devp2p/kademlia.py:239-255 | only such a bucket refuses a newcomer, after however many splits |
| SplitRule.RoomAdds | pydevp2p/devp2p/kademlia.py:154-177 | a node its bucket has, or has room for, goes to the tail and nothing else changes |
| BucketTable.LargestIdIsRefused | pydevp2p/devp2p/kademlia.py:257-262 | the largest id can never be added to any table |
| BucketTable.RemoveKeepsTable | pydevp2p/devp2p/kademlia.py:236-237 | removing keeps the table well-formed and takes out that node and no other, unless the lookup raises |
| Neighbours.MidpointDecides | pydevp2p/devp2p/kademlia.py:264-270 | of two buckets the one whose midpoint is closer to an id has all its ids closer to it |
| Neighbours.BucketOrderIsDistanceOrder | pydevp2p/devp2p/kademlia.py:264-270 | bucket by bucket in the order of midpoints is all nodes in the order of distance |
| Closest.NeighboursAreClosest | pydevp2p/devp2p/kademlia.py:283-298 | as many nodes as were asked for, or all, each once and closest first; whatever is left out is farther away |
| RoutingTables.GatheredEnough | pydevp2p/devp2p/kademlia.py:283-298 | cutting at 2k nodes loses none of the first k |
| RoutingTables.KBucket.Split | pydevp2p/devp2p/kademlia.py:125-140 | two new objects that hold the halves, in order |
| RoutingTables.KBucket.AddNode | pydevp2p/devp2p/kademlia.py:154-177 | the new list of nodes, or the head for the eviction check |
| RoutingTables.KBucket.GetDepth | pydevp2p/devp2p/kademlia.py:190-206 | the loop over prefix lengths |
| RoutingTables.RoutingTable.SplitBucket | pydevp2p/devp2p/kademlia.py:221-225 | one object of the list is replaced by its two halves, all others stay |
| RoutingTables.RoutingTable.AddNode | pydevp2p/devp2p/kademlia.py:239-255 | the objects contain what the specification says, after any number of splits, and the table stays valid |
| RoutingTables.RoutingTable.RemoveNode | pydevp2p/devp2p/kademlia.py:236-237 | one bucket object loses the node, the table stays valid |
| RoutingTables.RoutingTable.GetNeighbours | pydevp2p/devp2p/kademlia.py:283-298 | exactly the first k nodes of the whole table sorted by distance |
| Eviction.AddKeepsCaches | pydevp2p/devp2p/kademlia.py:125-140 | adding neither loses nor gains a replacement, however often it splits |
| Eviction.UpdateKeeps | pydevp2p/devp2p/kademlia.py:373-494 | an update keeps the table and pings well-formed; no ping and no replacement names the local node |
| Eviction.Expire | pydevp2p/devp2p/kademlia.py:438-453 | each replacement that takes over uses up an expected pong, so that the recursion of an update ends |
| EvictionRuns.UpdateEffect | pydevp2p/devp2p/kademlia.py:418-475 | an update adds at most one node, the sender or a replacement of a timed-out ping, removes only nodes whose pings timed out, and keeps the order of all others |
| EvictionRuns.ExpireThroughIff | pydevp2p/devp2p/kademlia.py:438-453 | the walk over the pings reaches its end if and only if no timed-out ping ends the update |
| EvictionRuns.PongCreditedIff | pydevp2p/devp2p/kademlia.py:438-461 | a pong in time is credited if and only if no timed-out ping ends the update before and its replacement can be looked up |
| EvictionRuns.CreditedStays | pydevp2p/devp2p/kademlia.py:455-464 | a credited node stays in the table, as the most recently seen one of its bucket |
| EvictionRuns.SenderStoredOrWaits | pydevp2p/devp2p/kademlia.py:463-470 | after an update that no timed-out ping ends, the sender is the most recently seen node of its bucket; or its bucket is full, and the least recently seen node was pinged with the sender as replacement |
| UpdateOutcome.UpdateEnds | pydevp2p/devp2p/kademlia.py:418-475 | an update without an exception, also after replacements took over: no timed-out ping is left, their nodes are out, and the last replacement or the sender is the newest node of its bucket or waits for the oldest one to answer; or a ping to that node itself timed out |
| UpdateOutcome.ExpiredPingsWorkedOff | pydevp2p/devp2p/kademlia.py:439-452 | after such an update no timed-out ping is left, or one was sent to a node that took over or to the sender |
| UpdateOutcome.NothingToUpdate | pydevp2p/devp2p/kademlia.py:418-437 | a pong nobody waits for changes nothing |
| MessageOutcome.WalkIs | pydevp2p/devp2p/kademlia.py:439-452 | the walk over the expected pongs, place by place: which ping ends it and how, and which pings are left, in order |
| MessageOutcome.CreditIs | pydevp2p/devp2p/kademlia.py:455-461 | a credited pong: its ping is taken out, and its replacement comes last among those of its bucket |
| MessageOutcome.SendPingIs | pydevp2p/devp2p/kademlia.py:502-517 | a ping is due after 900 milliseconds and comes last; one with a key in use takes its place |
| MessageOutcome.AddedSends | pydevp2p/devp2p/kademlia.py:463-475 | after a node was added one ping goes to each replacement there is room for, bucket by bucket |
| MessageOutcome.RefusedSends | pydevp2p/devp2p/kademlia.py:463-475 | when a node was refused the ping to the least recently seen node of its bucket comes before those |
| MessageOutcome.MessageEnds | pydevp2p/devp2p/kademlia.py:519-528 | a ping or a request for nodes from another node is an update for it, with the outcome of `UpdateEnds` |
| MessageOutcome.PongEnds | pydevp2p/devp2p/kademlia.py:530-541 | a pong that answers an outstanding ping: the same |
| MessageOutcome.WithoutEffect | pydevp2p/devp2p/kademlia.py:519-541 | messages from the local node and pongs nobody waits for change nothing; a pong from the local node is an exception |
| EvictionRuns.UpdatePingsWaiting | pydevp2p/devp2p/kademlia.py:472-475 | after such an update every replacement of every bucket that is not full has been pinged |
| EvictionRuns.AnsweredKeepsReplacement | pydevp2p/devp2p/kademlia.py:455-461 | after the update for a credited answer the replacements in the table are those before and the replacement of the answered ping |
| EvictionRuns.NeighboursArePinged | pydevp2p/devp2p/kademlia.py:566-590 | of the nodes named by another node exactly those are newly pinged that are remote and not in the table |
| MessageOutcome.NeighboursCounted | pydevp2p/devp2p/kademlia.py:566-590 | one ping for each place of the list that names a node neither local nor known; the table stays |
| MessageOutcome.UnknownInOrder | pydevp2p/devp2p/kademlia.py:566-590 | these nodes are found one by one, in the order of the list |
| MessageOutcome.UnknownRaisesIff | pydevp2p/devp2p/kademlia.py:566-590 | a list of nodes raises if and only if a bucket ends with one of them that is not the local one |
| BootstrapOutcome.BootstrapStores | pydevp2p/devp2p/kademlia.py:365-371 | a bootstrap stores every node it is given, but those whose bucket is full and kept whole |
| EvictionTrace.AnsweringNodeEvicted | pydevp2p/devp2p/kademlia.py:373-475 | a run of six events from a fresh start in which a node in the table answers its ping in time and the next message takes it out |
| EvictionRuns.HandleKeeps | pydevp2p/devp2p/kademlia.py:519-596 | every message keeps the state well-formed, removes only nodes whose pings timed out, and makes only pings with the full time-out |
| EvictionRuns.EvictedOnlyAfterTimeout | pydevp2p/devp2p/kademlia.py:373-596 | in every run a node that leaves the table was pinged earlier, the ping stayed outstanding ever since, and more than the time-out has passed |
| KademliaProtocols.KademliaProtocol.Ping | pydevp2p/devp2p/kademlia.py:502-517 | one more expected pong, under the key of echo and node |
| KademliaProtocols.KademliaProtocol.ExpirePings | pydevp2p/devp2p/kademlia.py:438-453 | the loop over a snapshot of the expected pongs does what the specification says, up to the ping that ends it |
| KademliaProtocols.KademliaProtocol.Update | pydevp2p/devp2p/kademlia.py:418-475 | table and expected pongs after an update, its recursion on replacements included |
| KademliaProtocols.KademliaProtocol.RecvPong | pydevp2p/devp2p/kademlia.py:530-541 | an update with the id of the ping that is answered |
| KademliaProtocols.KademliaProtocol.RecvNeighbours | pydevp2p/devp2p/kademlia.py:566-590 | the pings sent: to the nodes that are neither local nor known |
| KademliaProtocols.KademliaProtocol.RecvFindNode | pydevp2p/devp2p/kademlia.py:592-598 | an update, and then the closest nodes of the new table |
| KademliaProtocols.KademliaProtocol.Bootstrap | pydevp2p/devp2p/kademlia.py:365-371 | the table: the nodes are added one by one, up to the first exception |
| GossipNode.FormTable | libgfrp2p/src/app_eth.cpp:83-135 | going over all ids field by field lists exactly the nodes whose number was drawn, each once, other than the node itself; the node with the next number is in front |
| GossipNode.ListedIsFormed | libgfrp2p/src/app_eth.cpp:52-137 | when the numbers count the nodes, these are 14 different nodes, and slot 0 is the next node, also for the last node |
| GossipNode.ListedNetwork | libgfrp2p/src/app_eth.cpp:52-137 | the tables of all nodes make up a network in which slot 0 leads from each node to the next |
| GossipNode.ListedNetworkReached | libgfrp2p/src/app_eth.cpp:52-137 | on these tables a broadcast whose senders all include slot 0 reaches every node |
| GossipNode.SlotZeroIsTour | libgfrp2p/src/app_eth.cpp:62-137 | following slot 0 from any node visits every node exactly once and is back after as many steps as there are nodes |
| GossipNode.PeerManagerEth.Receive | libgfrp2p/src/peer_manager_eth.cpp:293-305 | push mode: a message is relayed the first time its broadcast is seen, and not at all when its time is up |
| GossipNode.ReceiveIsStep | libgfrp2p/src/peer_manager_eth.cpp:293-305 | what a receiver does is a step of the network model |
| GossipRun.RunsTerminate | libgfrp2p/src/peer_manager_eth.cpp:91-154 | in a network of any size no node relays twice, and no run sends more than three messages for each node and three for the origin |
| GossipRun.ReceiversAre | libgfrp2p/src/peer_manager_eth.cpp:115-154 | a sender sends to two nodes of slots 1 to 12, and possibly to slot 0 |
| GossipRun.TimeToLiveCountsHops | libgfrp2p/src/peer_manager_eth.cpp:91-154 | what a message has left to live and the number of different nodes that relayed it add up to the initial time to live |
| GossipRun.NotStuck | libgfrp2p/src/peer_manager_eth.cpp:293-305 | a message in flight can always be delivered, in a network of any size |
| GossipRun.RelayedIffReached | libgfrp2p/src/peer_manager_eth.cpp:91-154 | in a network of no more nodes than the time to live: at rest the nodes that relayed are exactly those a chain of sends reaches |
| GossipRun.EveryNodeReached | libgfrp2p/src/peer_manager_eth.cpp:115-154 | in a network of no more nodes than the time to live: if every sender includes slot 0, all nodes are reached at rest |
| GossipPull.RunKeeps | libgfrp2p/src/peer_manager_eth.cpp:91-287 | in every run stored data is kept under the text of its hash, invitations and requests name data their holder has, and data messages are labelled with their own hash |
| GossipPull.RequestsAreAnswered | libgfrp2p/src/peer_manager_eth.cpp:256-287 | the lookup that answers a request never misses, and every message in flight can be handled |
| GossipPull.InvitedHave | libgfrp2p/src/peer_manager_eth.cpp:256-287 | at rest every node holds the data it was ever invited to |
| GossipPull.StoredStays | libgfrp2p/src/peer_manager_eth.cpp:109-112 | what is stored under a key stays there unchanged, even when other data with the same hash arrives |
| PullRuns.DeliveryLeavesLess | libgfrp2p/src/peer_manager_eth.cpp:256-287 | every delivery leaves less to do: invitations to holders are dropped, and nobody requests data it holds |
| PullRuns.PullTerminates | libgfrp2p/src/peer_manager_eth.cpp:256-287 | once nothing new is published, no run has more deliveries than a bound computed from the messages in flight and who lacks what |
| PullRuns.EveryNodeHolds | libgfrp2p/src/peer_manager_eth.cpp:91-154 | if every sender includes slot 0, at rest every node holds everything that was published |
| NodeIds.NumberRoundTripIff | libgfrp2p/src/utils.cpp:22-102 | number to fields to number is the identity if and only if no field is in use above a level for which one conversion leaves no room, and the two counts of cities agree or do not matter |
| NodeIds.FieldsRoundTripIff | libgfrp2p/src/utils.cpp:105-155 | fields to number to fields is the identity under the same condition |
| NodeIds.UsedRoundTripIff | libgfrp2p/src/utils.cpp:22-155 | with every level in use: the two counts of cities agree or the node is in the first state |
| NodeIds.NumberFromSizes | libgfrp2p/src/utils.cpp:105-155 | the number of a node level by level, from the sizes of the deployment |
| NodeIds.FieldsFromSizes | libgfrp2p/src/utils.cpp:22-102 | the fields of a number level by level, each within its bound, from the sizes of the deployment |
| NodeIds.ConversionsDiffer | libgfrp2p/src/utils.cpp:22-155 | a deployment in which node 8 comes back as number 16 |
| NodeIds.OrderAgreesIff | libgfrp2p/src/utils.cpp:105-155 | the lexicographic order of the nodes of a deployment is the order of their numbers if and only if the conversion to a number leaves room to every field above which a field is used |
| NodeIds.CountsNodesIff | libgfrp2p/src/utils.cpp:22-155 | the numbers count the nodes of a deployment from 0 on if and only if a level without room has nothing above it that is used, and the counts of cities agree or do not matter |
| NodeIds.FortyNodes | libgfrp2p/test/bootstrap_eth_40.sh:110-120 | the deployment of forty nodes leaves levels unused, and its numbers count the nodes in order all the same |
| IdText.TextRoundTripIff | libgfrp2p/src/utils.cpp:60-125 | cutting up the text of an id gives its fields if and only if all of them but the last fit their columns |
| IdText.ColumnsAre | libgfrp2p/src/utils.cpp:60-125 | fields that fit stand in columns of 3, 4, 5, 6, 5 and 9 digits |
| IdText.NumberTextRoundTripIff | libgfrp2p/src/utils.cpp:22-155 | number to text to number is the identity if and only if the fields have the same value for both conversions |
| IdText.TextNumberRoundTripIff | libgfrp2p/src/utils.cpp:22-155 | text to number to text, under the same condition |
| IdText.TextOrderAgreesIff | libgfrp2p/src/utils.cpp:60-155 | the texts of the nodes of a deployment are ordered like their numbers if and only if there is room |

## Left out

Of the ring broadcast:

- Sockets, delays, logging, message and broadcast ids, and the random choice of a contact: any contact may be chosen. Delivery is reliable and in any order.
- Message types 3 and 4 (a type nothing sends, and contact election), `broadcast_down` (never called), heartbeats, join and leave.
- `sent_ids`: only carried along (its use as a filter is commented out); its text form is in `WireFormat.dfy`.
- Spreading with k = 3: every caller passes 2.
- Structure.FormStructure: stops at the city level. From the state level on the contacts are listed in the order of an `unordered_map`, so a shared peer order cannot be derived from the code; for such networks `Topology.WellFormed` is the assumption. Where a city has more contacts than a district and there is a state level, the city ring has several leads: `RingStartsAre` and `ExactlyOnceIff` cover that, too. District ids are given as a list of texts, and a node's predecessor and successor, which the broadcast does not use, are left out.
- PeerManagers.PeerManager.BroadcastUp: covers the cases in which `on_receive` calls it. A ring of the table without contacts above it, for which the method would broadcast within the ring under order -1, is not among them: `on_receive` starts the spread itself then.
- WireFormat.Receive: numbers are unbounded; the range check of the conversion and the blanks it skips in front of a number are not modelled.
- Integer widths of levels and orders, far from their limits.

Of the multiplexer:

- The frame cipher and its message authentication codes; the path without a cipher is modelled.
- RLP items of more than 55 bytes: none occurs in a frame header, and the reader treats one as malformed.
- Links.DeliversInOrder: requires that the 16-bit sequence id a packet gets is not in use by frames still queued for the same protocol (`Wraparound.CountedRunDelivers` has the number of packets added in its place, and `IdReuse.ReusedIdFaults` a run that fails without) and that packets have fewer than 2^32 bytes. Packets with an empty payload are not delivered, so they are not counted.
- `pop_all_frames_as_bytes` beyond joining the bytes of the frames.

Of the routing table and eviction protocol:

- Node keys, addresses and signatures: a node is its 256-bit id, and different nodes have different ids.
- `find_node` requests, their time-outs and the refresh of idle buckets: they send messages and change neither table nor pings. `last_updated` is left out with them.
- `neighbours_within_distance`, a plain filter and sort.
- Time is a parameter that stays the same within a call; the echo of a ping is whatever the wire chooses, as a function of the number of pings sent before.
- KademliaProtocols.KademliaProtocol.Update: the refresh of idle buckets and the pruning of find requests (from line 477 on) are not modelled.
- KademliaProtocols.KademliaProtocol.RecvNeighbours: the find requests forwarded to the nodes named are not modelled.
- KademliaProtocols.KademliaProtocol.Bootstrap: the `find_node` request sent through each node is not modelled.
- KademliaProtocols.KademliaProtocol.RecvPong: the update of the sender's address is not modelled.
- MessageOutcome.RefusedSends: this and `AddedSends` are for echoes that have not been used before; `SendPingIs` says what becomes of a repeated one.
- EvictionRuns.PongCreditedIff: assumes that the echo of the ping is not used again by a later ping.
- Exceptions end the handling of a message in the state reached; what the caller does with them is left out.

Of the gossip baseline:

- GossipNode.FormTable: the neighbours drawn at random are an arbitrary set, of the size the loop ends with for `ListedIsFormed`; that drawing with rejection ends is not claimed. The six nested loops are three methods of two loops each.
- GossipNode.PeerManagerEth.Receive: push mode only, with the check of the time to live (lines 208 to 211 of the same file); pull mode is `GossipPull.dfy`.
- PullRuns.PullTerminates: the bound counts the deliveries after the last publication; a node that receives data twice announces it twice.
- IdText.NumberTextRoundTripIff: for ids whose fields fit their columns; wider fields shift the columns behind them (`TextRoundTripIff`).
