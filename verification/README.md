# Verified models of the ComNetsEmu applications

A Dafny model of the stateful parts of the software-defined-networking and network-coding
applications, with proofs about whole runs. `dafny verify dfyconfig.toml` checks everything.

- **Routing controller** (`FlowTables`, `FlowIds`, `LatencyGraph`, `ShortestPath`, `InstallPath`,
  `MigrationPlan`, `InFlight`, `RemoteController`): path enumeration and ranking, installation, and the
  live migration of a flow from one path to another. Tables map a switch and a match to a port; each
  FlowMod is one step. The main results are that tables deliver after every single message, that a packet
  under way never loops whatever the interleaving, and that over any run of installations and reroutings
  every flow's tables are exactly its chosen path.
- **Edit-distance rerouting** (`Levenshtein`, `GridSearch`, `EditScript`): the dynamic-programming table
  against single edits, a best-first search that reopens finished cells, and the in-place replay of its
  changes, which is right for every path through the table exactly when the two paths meet a condition on
  their table.
- **Learning switch** (`TreeNetwork`, `LearningSwitch`, `SwitchLearning`): the MAC-learning handler on any
  tree of switches, as a transition system over frames, packet-ins and entries; delivery, and what has been
  learned, over all runs.
- **Service slicing** (`Slicing`): flow tables as caches of the controller's decisions, and what that means
  for itineraries on the four-switch topology.
- **Network coding** (`Encoder`, `Decoder`, `Redundancy`, `LossOutcomes`, `Checksum`): 8-bit generation
  numbers over an in-order lossy link, the delivery loop over a list that shrinks while it is walked, the
  least redundancy over binomial tails, and the IPv4 checksum in the opposite byte order.
- **Congestion control** (`Congestion`, `SlowStart`): window succession, packet accounting, and when and by
  how much the congestion window changes, with and without timeouts.
- **Q-learning** (`Transitions`, `QTable`): the state space built from a Cartesian product, and bounds and
  contraction of the value updates over the reals.

`Sequences`, `Sets`, `Options` and `Reals` are shared vocabulary.

Where code and documentation differ the model follows the code. `mod_flow` passes the MODIFY constant as
`flags`, so an ADD is sent; a link's latency is charged in the reverse direction; `filter_paths` discards
its sorted list; the weighted bandit discounts past rewards once more than the comment above it says;
equal table values on a diagonal do not imply equal elements; the decoder's loop skips the element after
each deletion; an action changes the congestion window by up to 25%, not by the factors in the comment of
`update_cwnd`. Lemmas state the exact effect of each of the last four.

## Model

| member | source | states |
|---|---|---|
| MigrationPlan.Migration.EveryStateDelivers | app/machine_learning_for_routing/controller/remote_controller.py:690-745 | for any two simple paths with the same ends, after every single message of a rerouting, following the tables from the ingress gives exactly one trail; it is a prefix of the old path and a suffix of the new one, visits no switch twice and leaves at the host port |
| MigrationPlan.Migration.StageHolds | app/machine_learning_for_routing/controller/remote_controller.py:717-745 | the update invariant behind it: some index splits the new path so that all switches from there on forward along it, and every other old switch still forwards along the old path unless its entry is gone |
| MigrationPlan.Migration.TrailSimple | app/machine_learning_for_routing/controller/remote_controller.py:690-745 | the trail of every intermediate table state is duplicate-free |
| MigrationPlan.Migration.TableClosedForm | app/machine_learning_for_routing/controller/remote_controller.py:717-745 | what every entry of every switch is after any number of messages: written, deleted, or as before |
| MigrationPlan.Migration.PlanInstallsNext | app/machine_learning_for_routing/controller/remote_controller.py:717-745 | after the last message the tables hold exactly the hops of the new path for the flow, and nothing else for it |
| MigrationPlan.Migration.OtherMatchesUntouched | app/machine_learning_for_routing/controller/remote_controller.py:717-745 | no message of a rerouting changes an entry of another match |
| MigrationPlan.Migration.ModifyCoincides | app/machine_learning_for_routing/controller/remote_controller.py:287-318 | `mod_flow` hands MODIFY to the `flags` argument, so ADD is sent; every modified switch already holds an entry, and sending MODIFY would give the same tables after every message |
| MigrationPlan.Migration.ModsSpec | app/machine_learning_for_routing/controller/remote_controller.py:690-719 | the modification list holds exactly the shared switches whose successor changes and the predecessors of added switches, from the far end of the new path backwards |
| MigrationPlan.Migration.UnmodifiedSame | app/machine_learning_for_routing/controller/remote_controller.py:690-715 | a shared switch that is left out of the modification list has the same successor on both paths |
| MigrationPlan.Migration.DiffStep | app/machine_learning_for_routing/controller/remote_controller.py:690-709 | every index the loop over the new path looks up exists, and its test decides membership in the modification list |
| InFlight.NoInterleavingLoops | app/machine_learning_for_routing/controller/remote_controller.py:717-745 | under any interleaving of packet hops and messages, the packet's trail is a stretch of the old path followed by a stretch of the new one, shorter than both together; it is lost only on a switch whose entry has been deleted and otherwise leaves only at the egress host port |
| InFlight.LossExactly | app/machine_learning_for_routing/controller/remote_controller.py:717-745 | some run of a migration loses a packet exactly when the new path abandons a switch of the old one |
| InFlight.WaitingIsLost | app/machine_learning_for_routing/controller/remote_controller.py:740-746 | the run that shows it: a packet hops to an abandoned switch and waits there until the deletion |
| InFlight.EnteredLateNeverLost | app/machine_learning_for_routing/controller/remote_controller.py:717-745 | a packet that enters after the last addition and modification is never lost, whatever deletions follow |
| InFlight.HopFromNew | app/machine_learning_for_routing/controller/remote_controller.py:717-745 | once past the switchover a packet never leaves the new path, whatever messages follow |
| InFlight.RunPhase | app/machine_learning_for_routing/controller/remote_controller.py:717-745 | at every moment of every run the packet is on the old path before the switchover or on the new one after it |
| InFlight.RunLength | app/machine_learning_for_routing/controller/remote_controller.py:717-745 | every run is finite: its length is the messages sent plus the hops made |
| FlowTables.Net.TrailUnique | app/machine_learning_for_routing/controller/remote_controller.py:271-303 | tables determine where a packet goes: two trails from one switch are equal and leave at the same port |
| FlowIds.IdRoundTrip | app/machine_learning_for_routing/controller/functions.py:116-136 | taking a flow id apart returns the addresses it was built from exactly when neither contains the separator |
| ShortestPath.GetPaths | app/machine_learning_for_routing/controller/routing_spf.py:65-81 | terminates on every finite graph and returns exactly the simple paths from source to destination, each once |
| ShortestPath.Extend | app/machine_learning_for_routing/controller/routing_spf.py:73-80 | one neighbour of a popped path: every missing route stays covered by exactly one pending prefix, and the bound on the remaining work falls |
| ShortestPath.Expand | app/machine_learning_for_routing/controller/routing_spf.py:73-80 | the same for all neighbours of a popped path |
| ShortestPath.GetPathCost | app/machine_learning_for_routing/controller/routing_spf.py:89-94 | the loop computes the sum of the latencies recorded for the hops of the walk, each in the reverse direction |
| ShortestPath.SortByCost | app/machine_learning_for_routing/controller/routing_spf.py:106-110 | the ranking is a permutation in order of cost |
| ShortestPath.GetOptimalPaths | app/machine_learning_for_routing/controller/routing_spf.py:106-110 | with non-negative latencies the first path costs no more than any walk, simple or not; what is cut off costs no less than what is kept |
| ShortestPath.GetOptimalPath | app/machine_learning_for_routing/controller/routing_spf.py:14-17 | a destination that some walk reaches gets a simple path of least cost among all walks |
| LatencyGraph.EraseLoops | app/machine_learning_for_routing/controller/routing_spf.py:84-94 | every walk contains a simple path between its ends that costs no more when no latency is negative |
| LatencyGraph.CostSplit | app/machine_learning_for_routing/controller/routing_spf.py:89-94 | the cost of a walk is the cost of its two parts, wherever it is cut |
| LatencyGraph.CostIsRecorded | app/machine_learning_for_routing/controller/routing_spf.py:89-94 | the cost of a walk is the sum of the latencies recorded for its hops, each in the reverse direction |
| LatencyGraph.OneHopCost | app/machine_learning_for_routing/controller/routing_spf.py:89-94 | a single hop costs the latency recorded for the way back |
| LatencyGraph.RaisedCost | app/machine_learning_for_routing/controller/routing_spf.py:89-94 | raising one recorded latency raises the cost of a walk by as much for each of its hops in the opposite direction, and changes no other cost |
| InstallPath.AddPortsToPath | app/machine_learning_for_routing/controller/routing_spf.py:96-104 | each switch of the path gets two ports, no other switch gets any, and in the wiring the switch's predecessor and successor on the path are behind these ports, the host ports at the two ends |
| InstallPath.InstallHolds | app/machine_learning_for_routing/controller/routing_spf.py:19-40 | on tables without entries for the flow, the installation leaves exactly the hops of the path |
| InstallPath.AfterInstall | app/machine_learning_for_routing/controller/routing_spf.py:19-40 | after any number of installation messages exactly the first switches of the path are set and all other entries are as before |
| RemoteController.FlowState.UpdateOk | app/machine_learning_for_routing/controller/remote_controller.py:675-745 | if the messages leave exactly the new path of one flow and nothing else changes, all flows of the controller are again exactly on their chosen paths |
| RemoteController.FlowState.OthersOk | app/machine_learning_for_routing/controller/remote_controller.py:717-745 | messages that leave the entries of other matches alone keep every other flow exactly on its path |
| RemoteController.InstalledOk | app/machine_learning_for_routing/controller/remote_controller.py:646-666 | a new flow's installation keeps that invariant |
| RemoteController.MigrationOk | app/machine_learning_for_routing/controller/remote_controller.py:675-689 | between paths the controller has recorded, a rerouting meets the conditions of the migration theorems |
| RemoteController.ReroutedOk | app/machine_learning_for_routing/controller/remote_controller.py:675-745 | and it keeps the invariant of all flows |
| RemoteController.ControllerMain.RoutingIp | app/machine_learning_for_routing/controller/remote_controller.py:646-666 | the first packet of a flow puts it on a simple path between its hosts and keeps all flows exactly on their chosen paths; under the shortest-first bias and in the shortest-path mode no walk between the hosts costs less on the latencies that the mode ranks by, and every recorded path joins the two hosts |
| RemoteController.ControllerMain.ChoosePath | app/machine_learning_for_routing/controller/remote_controller.py:649-665 | in the shortest-path mode the routes are ranked a second time on the latencies recorded once, the whole list of routes is kept and the cheapest is chosen; otherwise at most fifty routes are kept, and the chosen one is the cheapest or one of those kept, as the bias says |
| RemoteController.ControllerMain.Install | app/machine_learning_for_routing/controller/routing_spf.py:19-40 | one message per switch of the path, each towards the next switch, the last one towards the host |
| RemoteController.ControllerMain.DiffPaths | app/machine_learning_for_routing/controller/remote_controller.py:690-709 | the loop finds exactly the switches to add and to modify |
| RemoteController.ControllerMain.OrderMods | app/machine_learning_for_routing/controller/remote_controller.py:711-719 | the third loop only finds switches that are already listed, so duplicate removal and reversal give the backward order of the new path |
| RemoteController.ControllerMain.PredecessorModified | app/machine_learning_for_routing/controller/remote_controller.py:711-714 | the predecessor of an abandoned switch exists and, if it stays, is already in the modification list |
| RemoteController.ControllerMain.SendPlan | app/machine_learning_for_routing/controller/remote_controller.py:717-745 | the three sending loops emit additions, then modifications, then deletions, and every lookup of a successor succeeds |
| RemoteController.ControllerMain.EveryMessageSafe | app/machine_learning_for_routing/controller/remote_controller.py:717-745 | after each message of a rerouting the flow's packets reach the host port on a trail without repetition, on the tables that the whole message history has built |
| RemoteController.ControllerMain.Reroute | app/machine_learning_for_routing/controller/remote_controller.py:669-745 | over any run of installations and reroutings: all flows stay exactly on their chosen paths, and every message of this rerouting is safe |
| Levenshtein.IterativeLevenshtein | app/machine_learning_for_routing/controller/functions.py:244-274 | every cell of the table is the edit distance between the two prefixes |
| Levenshtein.LevIsEditDistance | app/machine_learning_for_routing/controller/functions.py:252-274 | a number is the table value exactly when some sequence of that many single edits exists and no shorter one does |
| Levenshtein.ScriptExists | app/machine_learning_for_routing/controller/functions.py:252-274 | there is a sequence of exactly that many edits |
| Levenshtein.EditBound | app/machine_learning_for_routing/controller/functions.py:252-274 | one edit anywhere changes the distance to any sequence by at most one, up or down |
| Levenshtein.AdjacentCells | app/machine_learning_for_routing/controller/functions.py:252-274 | cells next to each other differ by at most one |
| Levenshtein.DiagonalCells | app/machine_learning_for_routing/controller/functions.py:252-274 | a diagonal step over equal elements leaves the value unchanged, any diagonal step raises it by at most one |
| GridSearch.AStar | app/machine_learning_for_routing/controller/functions.py:281-317 | terminates although it reopens finished cells, never fails, and returns a path of single steps from goal to start, for any estimate whatever |
| GridSearch.Relax | app/machine_learning_for_routing/controller/functions.py:303-316 | handling a cell's neighbours loses no reachable cell, keeps every predecessor link one step back, and adds less work to the heap than the popped cell took away; every score stays that of a walk through the table, estimates and table values added up, and no neighbour scores more than going over this cell adds up to |
| GridSearch.Visit | app/machine_learning_for_routing/controller/functions.py:303-316 | the same for one neighbour, of which alone the score may change |
| GridSearch.PushScored | app/machine_learning_for_routing/controller/functions.py:312-316 | the new score and the place on the heap are those of the walk over the current cell |
| GridSearch.EverythingFinished | app/machine_learning_for_routing/controller/functions.py:294-317 | when nothing waits, every cell between start and goal has been finished |
| GridSearch.HeapNeverEmpty | app/machine_learning_for_routing/controller/functions.py:294-317 | so the heap is not empty before the goal is reached |
| GridSearch.Trace | app/machine_learning_for_routing/controller/functions.py:297-301 | the recorded predecessors lead from the goal back to the start |
| EditScript.GetCommandsRerouting | app/machine_learning_for_routing/controller/functions.py:138-199 | every index of the replay is in range and the result has the length of the new path; the labels are those of a path through the Levenshtein table of the two paths, the result is the new path exactly when each of them that says no change lies on equal elements, and it always is if no diagonal over different elements joins equal table values |
| EditScript.ReplayExact | app/machine_learning_for_routing/controller/functions.py:138-199 | that condition on the two paths is exact: it holds if and only if every path that the table allows is replayed to the new path |
| EditScript.UnambiguousSound | app/machine_learning_for_routing/controller/functions.py:163-199 | if no diagonal over different elements joins equal table values, every label of no change lies on equal elements |
| EditScript.AmbiguousFails | app/machine_learning_for_routing/controller/functions.py:163-199 | and if one does, the straight path through the table over that diagonal is one whose labels are wrong |
| EditScript.Replay | app/machine_learning_for_routing/controller/functions.py:178-199 | for any labelled path through the table the result is the new path exactly when each label of no change lies on equal elements, by the invariant that the list is an untouched part of the old path followed by a finished part of the new one |
| EditScript.ReplayStep | app/machine_learning_for_routing/controller/functions.py:178-199 | one change of the list keeps that invariant |
| EditScript.ChangeList | app/machine_learning_for_routing/controller/functions.py:151-173 | the labels compare the table values at the two ends of each step |
| EditScript.EqualElementsKept | app/machine_learning_for_routing/controller/functions.py:163-168 | a diagonal over equal elements is always labelled as no change, so only the converse can fail |
| EditScript.SampleAmbiguous | app/machine_learning_for_routing/controller/functions.py:163-168 | it does fail: between [1, 2] and [2, 1, 3, 4] a diagonal over different elements joins equal table values |
| EditScript.WrongLabels | app/machine_learning_for_routing/controller/functions.py:151-173 | a path through the table of these two over that diagonal, and the labels the table gives it |
| EditScript.WrongReplay | app/machine_learning_for_routing/controller/functions.py:163-199 | their replay ends in [2, 1, 1, 4] |
| TreeNetwork.Network.HopNearer | app/software_defined_networks_examples/ex03/sdn_switch_13.py:71-116 | on a tree of switches the hop towards a switch uses a wire and comes one wire nearer |
| TreeNetwork.Network.Orientation | app/software_defined_networks_examples/ex03/sdn_switch_13.py:71-116 | crossing a wire that does not lead towards a switch moves one wire away from it, and the way back is that wire |
| TreeNetwork.Network.OnPathAhead | app/software_defined_networks_examples/ex03/sdn_switch_13.py:71-116 | from a switch on a path the next hop stays on it and does not turn back |
| LearningSwitch.SimpleSwitch13.PacketIn | app/software_defined_networks_examples/ex03/sdn_switch_13.py:71-116 | the whole new state of the learning table and of the installed entries, and the packet-out |
| LearningSwitch.StepKeepsInv | app/software_defined_networks_examples/ex03/sdn_switch_13.py:40-116 | every step of hosts, switches and controller keeps the network invariant |
| LearningSwitch.RunKeepsInv | app/software_defined_networks_examples/ex03/sdn_switch_13.py:40-116 | over every run, with packet-ins answered in any order |
| LearningSwitch.NeverMisdirectedNeverTwice | app/software_defined_networks_examples/ex03/sdn_switch_13.py:40-116 | in every reachable state every learned port and installed entry points towards the host that owns the address, and no host gets a frame twice |
| LearningSwitch.DeliveredWhenQuiet | app/software_defined_networks_examples/ex03/sdn_switch_13.py:95-116 | a frame with no copies left has reached the host it is addressed to, or every host but the sender if nobody has the address |
| LearningSwitch.NoFrameCirculates | app/software_defined_networks_examples/ex03/sdn_switch_13.py:95-116 | every switch processes every frame at most once, which bounds the steps of a run |
| SwitchLearning.KnownExactly | app/software_defined_networks_examples/ex03/sdn_switch_13.py:92-96 | in every run the controller knows the way from a switch to a host exactly if it has answered a packet-in of that switch for a frame from that host |
| SwitchLearning.HeardThenUnicast | app/software_defined_networks_examples/ex03/sdn_switch_13.py:92-116 | once it has, every later frame for that host leaves the switch by the port towards the host and by no other, with or without the controller |
| SwitchLearning.UnicastOnly | app/software_defined_networks_examples/ex03/sdn_switch_13.py:71-116 | a frame sent when every switch on its way has heard from its destination is copied to switches on that way only and delivered to that host only |
| SwitchLearning.InstalledExactly | app/software_defined_networks_examples/ex03/sdn_switch_13.py:96-102 | in every run a switch holds an entry for an ingress port and a destination exactly if such a packet-in was answered when it had heard from the destination |
| SwitchLearning.AskedOnce | app/software_defined_networks_examples/ex03/sdn_switch_13.py:96-102 | after such an answer the next frame for the same switch, port and destination is matched and does not reach the controller; without one it does |
| Slicing.TrafficSlicing.SwitchFeatures | app/realizing_network_slicing/service_slicing.py:31-53 | a connecting switch holds the table-miss entry only |
| Slicing.TrafficSlicing.PacketIn | app/realizing_network_slicing/service_slicing.py:71-159 | the packet-out is the promised one, exactly one entry is added or replaced, all tables still agree with the controller, and the next such packet is answered from the table where its entry can match it |
| Slicing.AddKeeps | app/realizing_network_slicing/service_slicing.py:44-53 | an agreeing entry keeps the table agreeing, whatever it replaces |
| Slicing.TableAgrees | app/realizing_network_slicing/service_slicing.py:88-159 | in every reachable table the matching entry of highest priority outputs a non-LLDP packet where the controller would send it |
| Slicing.AgreesExactly | app/realizing_network_slicing/service_slicing.py:80-159 | for all packets: the best entry agrees with the controller exactly on those that are not LLDP or that no installed entry answers |
| Slicing.LldpIsFlooded | app/realizing_network_slicing/service_slicing.py:80-82 | a core switch floods LLDP from every port from which it has flooded anything, though the controller ignores it |
| Slicing.LldpIsForwarded | app/realizing_network_slicing/service_slicing.py:88-94 | an edge switch forwards LLDP addressed to one of its hosts once it has an entry for that host |
| Slicing.CachedIsCacheable | app/realizing_network_slicing/service_slicing.py:88-159 | only packets whose own entry would match them are ever answered from a table; IPv6 segments of a slice always go to the controller |
| Slicing.MovesAsPromised | app/realizing_network_slicing/network.py:31-40 | through any reachable table, or through the controller, a packet can only move to the promised next place |
| Slicing.CanMove | app/realizing_network_slicing/network.py:31-40 | a packet at a switch that has its table-miss entry always has a best entry and a move |
| Slicing.JourneyGoesOn | app/realizing_network_slicing/network.py:31-40 | a journey that is still at a switch can be prolonged through whatever table the switch has then |
| Slicing.JourneyAsPromised | app/realizing_network_slicing/network.py:31-40 | a packet's whole itinerary is the promised one although the tables change during its journey |
| Slicing.NoLoops | app/realizing_network_slicing/network.py:31-40 | from anywhere in the network a packet makes at most five hops |
| Slicing.SlicesIsolated | app/realizing_network_slicing/service_slicing.py:96-152 | what a host sends to UDP port 9999 never crosses switch 3; its other UDP, TCP and ICMP never cross switch 2 |
| Slicing.DeliveredAcross | app/realizing_network_slicing/service_slicing.py:88-159 | a sliced packet between the two sides makes at most three hops, is off the switches exactly after three, is then at its host, and reaches no other |
| Encoder.RlncEncoder.Handle | app/network_coding_for_transport/encoder.py:63-168 | one input: after n data segments the rank is n mod 10 and the generation (n div 10) mod 256, and the packets sent carry the generation and coder of that segment, one, or one plus the redundancy for the last of a generation |
| Encoder.RlncEncoder.Run | app/network_coding_for_transport/encoder.py:63-168 | the loop sends what the closed form says, up to the frame whose payload is too long for the assertion |
| Encoder.OutputInOrder | app/network_coding_for_transport/encoder.py:141-168 | every packet's number is its coder's number modulo 256, and coders appear in order |
| Encoder.GenerationSize | app/network_coding_for_transport/encoder.py:111-127 | a complete generation is sent as ten packets plus the redundancy in force at its last segment, and as nine when that is negative, however OAM messages change the redundancy in between |
| Encoder.EachRankSent | app/network_coding_for_transport/encoder.py:108-127 | each rank below ten is sent once per generation, rank ten once and as often again as the redundancy in force says |
| Encoder.EveryGenerationSent | app/network_coding_for_transport/encoder.py:63-168 | enough data segments make the encoder send a packet of any generation |
| Decoder.DeliveryLoop | app/network_coding_for_transport/decoder.py:118-145 | deleting from the list under the iterator sends and keeps exactly the symbols the specification names |
| Decoder.SentOrKept | app/network_coding_for_transport/decoder.py:118-145 | every pending symbol is either sent or kept, and only decoded ones are sent |
| Decoder.CompleteIff | app/network_coding_for_transport/decoder.py:118-145 | a pass sends every decoded symbol exactly when no two neighbours of the list are both decoded |
| Decoder.HalfDelivered | app/network_coding_for_transport/decoder.py:118-145 | a pass sends at least half of the decoded symbols |
| Decoder.FourPasses | app/network_coding_for_transport/decoder.py:118-145 | with the same symbols decoded throughout, four passes over any list of a generation send all of them |
| Decoder.FourMore | app/network_coding_for_transport/decoder.py:84-145 | in any run: once kodo reports all symbols decoded, four more packets of the generation leave nothing pending |
| Decoder.NothingForgotten | app/network_coding_for_transport/decoder.py:92-145 | over every run each of the ten symbols is still pending or has been sent out by the present decoder |
| Decoder.GenerationDelivered | app/network_coding_for_transport/decoder.py:84-145 | so once a generation is decoded, after four more of its packets all ten symbols have been sent out, each exactly once |
| Decoder.GenerationComplete | app/network_coding_for_transport/decoder.py:84-145 | and where no decoder has mixed generations they are the symbols of the generation that arrives |
| Decoder.RlncDecoder.Receive | app/network_coding_for_transport/decoder.py:84-145 | the whole new state of the decoder and what it sends |
| Decoder.RunDecoder | app/network_coding_for_transport/decoder.py:60-145 | the loop ends in the state, and with the deliveries, of the specification's run |
| Decoder.DecoderSendsOnce | app/network_coding_for_transport/decoder.py:118-145 | no decoder sends a symbol twice, whatever arrives and whatever kodo answers |
| Decoder.PureIff | app/network_coding_for_transport/decoder.py:92-110 | on an in-order lossy link no decoder is fed two generations exactly when every change of generation between successive arrivals shows in the 8-bit numbers |
| Decoder.PureSources | app/network_coding_for_transport/decoder.py:92-110 | then two deliveries come from one decoder exactly when they carry one generation |
| Decoder.MarkedRoundsNoticed | app/network_coding_for_transport/decoder.py:92-110 | that holds if each generation numbered 0 and each numbered 255 is represented, however many others are lost |
| Decoder.LostRoundMixes | app/network_coding_for_transport/decoder.py:92-110 | it fails when a whole round of 256 generations is lost between two arrivals, for any generation and whatever kodo answers |
| Decoder.LostRoundHappens | app/network_coding_for_transport/decoder.py:92-110 | such arrivals are what an in-order link can leave of what the encoder sends for some input |
| Decoder.SameCoderSameDecoder | app/network_coding_for_transport/decoder.py:92-110 | on an in-order lossy link, whatever is lost, one generation is delivered by one decoder only |
| Decoder.SymbolSentOnce | app/network_coding_for_transport/decoder.py:92-145 | on every in-order lossy link, whatever is lost, no symbol of a generation is sent out twice |
| Decoder.LossyLink | app/network_coding_for_transport/decoder.py:92-145 | for whatever the encoder is given and the in-order link loses: no symbol is sent out twice; and if the generations numbered 0 and 255 are not lost entirely, no decoder is fed two generations |
| Redundancy.SystematicRedundancy | app/network_coding_for_transport/redundancy_calculator.py:3-10 | for 0 < p <= 1 and qos < 1 the loop ends with the least number of packets whose decoding probability exceeds qos; a number of symbols that is zero or less is returned at once, whatever qos is |
| Redundancy.TailIsBinomial | app/network_coding_for_transport/redundancy_calculator.py:13-14 | the recurrence used for the tail is the sum of the binomial probabilities |
| LossOutcomes.TailIsProbable | app/network_coding_for_transport/redundancy_calculator.py:13-14 | and it is what all outcomes of the transmissions in which enough packets arrive weigh together |
| LossOutcomes.DecProbIsProbable | app/network_coding_for_transport/redundancy_calculator.py:13-14 | the decoding probability is what all outcomes weigh together in which the packet itself arrives or enough of the others do |
| LossOutcomes.OutcomesComplete | app/network_coding_for_transport/redundancy_calculator.py:13-14 | every outcome is counted |
| Redundancy.TailRises | app/network_coding_for_transport/redundancy_calculator.py:13-14 | more packets make decoding likelier |
| Redundancy.TailMonotoneInP | app/network_coding_for_transport/redundancy_calculator.py:13-14 | so does a better link |
| Redundancy.DecProbMonotone | app/network_coding_for_transport/redundancy_calculator.py:13-14 | the decoding probability does not fall with the number of packets and never exceeds one |
| Redundancy.ReachableBelowOne | app/network_coding_for_transport/redundancy_calculator.py:8-9 | the loop can end exactly when qos is below one |
| Redundancy.BetterLinkNeedsNoMore | app/network_coding_for_transport/redundancy_calculator.py:3-10 | a better link never needs more packets, and exactly the numbers from the answer on are enough |
| Checksum.UpdateCksumIpv4 | app/network_coding_for_transport/rawsock_helpers.py:33-53 | the header gets exactly the big-endian checksum of section 3.1 of RFC 791 and no other byte of the buffer changes, although words are read and written little-endian and folded only twice |
| Checksum.SwappedChecksum | app/network_coding_for_transport/rawsock_helpers.py:143-162 | folding the little-endian sum twice and complementing gives the byte-swapped checksum (section 2(B) of RFC 1071); the other copy of the code computes the same |
| Checksum.FoldSwapped | app/network_coding_for_transport/rawsock_helpers.py:41-48 | the two folded sums are byte-swapped copies of each other |
| Checksum.TwoFolds | app/network_coding_for_transport/rawsock_helpers.py:45-46 | two carries are enough for a header |
| Checksum.AcceptedExactly | app/network_coding_for_transport/rawsock_helpers.py:33-53 | a receiver accepts the header exactly with this checksum, or with the other form of zero |
| Checksum.ChangedByteNoticed | app/network_coding_for_transport/rawsock_helpers.py:33-53 | an accepted header with any one byte changed is not accepted |
| Congestion.UpdateCwnd | app/machine_learning_for_congestion_control/source.py:283-297 | never below one packet; the upper actions make the window grow and the lower ones shrink it |
| SlowStart.StepSize | app/machine_learning_for_congestion_control/source.py:283-297 | the new window is the whole part of the old one changed by 5% for each step of the action away from 5, but changes by at least one packet and keeps at least one |
| Congestion.UDPCCClient.SendPacket | app/machine_learning_for_congestion_control/source.py:129-145 | the whole new state after a packet is sent |
| Congestion.UDPCCClient.GetWindow | app/machine_learning_for_congestion_control/source.py:259-264 | the search from the end finds the window with the number, or nothing |
| Congestion.UDPCCClient.CloseWindow | app/machine_learning_for_congestion_control/source.py:223-257 | what closing a window computes, or which division, assertion or exit ends the program |
| Congestion.UDPCCClient.ReceiveAck | app/machine_learning_for_congestion_control/source.py:179-210 | the whole new state after an acknowledgement |
| Congestion.UDPCCClient.HandleTimeout | app/machine_learning_for_congestion_control/source.py:152-159 | the whole new state after a timeout |
| Congestion.Loop | app/machine_learning_for_congestion_control/source.py:147-177 | the client ends where the specification's run ends, for any sequence of events |
| Congestion.EndStops | app/machine_learning_for_congestion_control/source.py:223-257 | closing a window whose predecessor is closed ends the program exactly when the window has no sample or no packet; no other divisor is ever zero |
| Congestion.AcknowledgeKeeps | app/machine_learning_for_congestion_control/source.py:179-210 | when an acknowledgement ends the program, and that otherwise the bookkeeping survives |
| Congestion.TimeoutKeeps | app/machine_learning_for_congestion_control/source.py:152-159 | a timeout ends the program exactly when the window it closes has no sample or no packet |
| Congestion.RunKeepsBooks | app/machine_learning_for_congestion_control/source.py:129-257 | over every run, timeouts included: packets in flight are the difference of the two counters, the windows' packet lists concatenate to all packets sent, every acknowledgement is credited once, the congestion window is at least one, the predecessor assertion never fails |
| Congestion.WindowsPartition | app/machine_learning_for_congestion_control/source.py:129-145 | the windows' packet lists concatenate to 1, 2, ..., up to the last packet sent |
| Congestion.TimeoutFreeRunsOn | app/machine_learning_for_congestion_control/source.py:179-257 | over every run without timeouts a window that is closed has a packet, a sample and a closed predecessor, and the program never ends by accident |
| Congestion.InOrderRunsCreditOwn | app/machine_learning_for_congestion_control/source.py:179-233 | if acknowledgements come in order too, each window is credited with its own packets only and every loss rate lies between 0 and 1 |
| Congestion.FirstTimeoutExits | app/machine_learning_for_congestion_control/source.py:152-159 | a timeout before the first acknowledgement does end the program |
| SlowStart.RunKeepsLedger | app/machine_learning_for_congestion_control/source.py:147-257 | over every run, timeouts included: slow start lasts exactly as long as no closed window other than the first has lost a packet; mean round-trip time, throughput and loss rate of those windows fit their packets and samples, no throughput exceeds the greatest one; and the last window records the congestion window |
| SlowStart.EndRecords | app/machine_learning_for_congestion_control/source.py:223-257 | closing a window records these values and ends slow start exactly if the window is not the first and has lost a packet |
| SlowStart.AckInSlowStart | app/machine_learning_for_congestion_control/source.py:190-199 | in slow start an acknowledgement makes the window one packet larger, and the one that ends slow start halves it before the action is applied |
| SlowStart.AckAfterSlowStart | app/machine_learning_for_congestion_control/source.py:190-199 | afterwards slow start does not return, and the window changes by the action of each new window only |
| SlowStart.AckOpens | app/machine_learning_for_congestion_control/source.py:185-199 | an acknowledgement opens a window exactly if its packet belongs to the last one, and leaves in flight what was sent after it |
| SlowStart.SilenceToOne | app/machine_learning_for_congestion_control/source.py:152-159 | a timeout leaves nothing in flight and one packet in the window, or two if the agent asks for more at once |
| SlowStart.SlowStartWindow | app/machine_learning_for_congestion_control/source.py:147-199 | over every run, in slow start the window is one packet more than the acknowledgements since the last timeout |
| SlowStart.MinRttExact | app/machine_learning_for_congestion_control/source.py:179-206 | over every run the smallest round-trip time is the least of all samples |
| Transitions.StatesExact | app/machine_learning_for_routing/controller/learning_module.py:627-638 | the listed states are exactly the choices of one known path per flow |
| Transitions.StatesDistinct | app/machine_learning_for_routing/controller/learning_module.py:627-638 | each is listed once, and their number is the product of the numbers of paths |
| Transitions.RemoveWhileIterating | app/machine_learning_for_routing/controller/learning_module.py:674-677 | removing from the list that is walked removes exactly the present path when no path is listed twice |
| Transitions.GetActionsForStates | app/machine_learning_for_routing/controller/learning_module.py:660-682 | the loops build the specification's list of actions |
| Transitions.ActionsExact | app/machine_learning_for_routing/controller/learning_module.py:660-682 | which holds exactly the moves of one flow to another of its paths, and standing still, for every state |
| Transitions.GetStateTransitions | app/machine_learning_for_routing/controller/learning_module.py:594-610 | every action gets the state it leads to |
| Transitions.GetNextState | app/machine_learning_for_routing/controller/learning_module.py:390-411 | the lookup returns that state for every listed action, and the empty dictionary for any other |
| Transitions.BuildSpace | app/machine_learning_for_routing/controller/learning_module.py:482-487 | states, actions and transitions are built for the same space |
| Transitions.Closed | app/machine_learning_for_routing/controller/learning_module.py:594-610 | the system never leaves the product, and an action changes only the flow it names |
| Transitions.Reaches | app/machine_learning_for_routing/controller/learning_module.py:390-411 | any state reaches any other with as many actions as flows they differ in |
| Transitions.NoShorterRun | app/machine_learning_for_routing/controller/learning_module.py:390-411 | and no run is shorter |
| QTable.CreateNewQTable | app/machine_learning_for_routing/controller/learning_module.py:559-591 | one initial entry for every generated action, and no other |
| QTable.KeyMaxActionValue | app/machine_learning_for_routing/controller/learning_module.py:942-952 | the first action of greatest value |
| QTable.UpdateQl | app/machine_learning_for_routing/controller/learning_module.py:781-812 | the learning step, on the value of the best next action |
| QTable.UpdatedEntries | app/machine_learning_for_routing/controller/learning_module.py:806-808 | a step gives one entry a new value and one more visit and leaves all others as they were |
| QTable.RewardCounts | app/machine_learning_for_routing/controller/learning_module.py:806-808 | a reward that is higher by d makes the updated value higher by alpha times d |
| QTable.UnchangedExactly | app/machine_learning_for_routing/controller/learning_module.py:806-808 | the updated value stays as it was exactly if alpha is 0 or the reward is the old value minus gamma times the best next one |
| QTable.NearerToLimit | app/machine_learning_for_routing/controller/learning_module.py:806-808 | where the best next value is the old value itself, the distance to r / (1 - gamma) shrinks by exactly 1 - alpha (1 - gamma) |
| QTable.FirstValue | app/machine_learning_for_routing/controller/learning_module.py:796-808 | where nothing has been tried yet the value becomes alpha times the reward |
| QTable.VisitsCounted | app/machine_learning_for_routing/controller/learning_module.py:806-808 | over every run an entry's visits count its updates, and an entry without any is untouched |
| QTable.BuildTable | app/machine_learning_for_routing/controller/learning_module.py:482-488 | the table of a space holds exactly the allowed actions of its states |
| QTable.LookupsSucceed | app/machine_learning_for_routing/controller/learning_module.py:781-812 | along every run of actions every lookup of the update finds its entry |
| QTable.ValuesBounded | app/machine_learning_for_routing/controller/learning_module.py:781-812 | over every run on a new table, values that are not infinite stay between -max(140, R/(1-gamma)) and 0 |
| QTable.UpdateNonexpansive | app/machine_learning_for_routing/controller/learning_module.py:796-808 | the same step on two tables never moves them apart, and brings the updated entry closer by the factor 1 - alpha (1 - gamma) |
| QTable.WeightedSum | app/machine_learning_for_routing/controller/learning_module.py:757-762 | the sum over the past rewards is their exponential average, discounted once more |
| QTable.UpdateBandit | app/machine_learning_for_routing/controller/learning_module.py:753-774 | the bandit's whole new entry, with at most five remembered rewards |
| QTable.BanditIsRecency | app/machine_learning_for_routing/controller/learning_module.py:755-763 | it is the average that the comment states exactly when the learning rate is 0 or 1 or the past counts nothing |
| QTable.BanditRunInRange | app/machine_learning_for_routing/controller/learning_module.py:755-768 | over every run of rewards the bandit's value stays in their range |
| QTable.BanditRemembersLatest | app/machine_learning_for_routing/controller/learning_module.py:753-768 | and exactly the latest five rewards are remembered, in their order, while all are counted |

## Left out

- EditScript.GetCommandsRerouting: stated under its condition on the two paths (`EditScript.Unambiguous`) instead of unconditionally, because the labels compare table values and not elements; where the condition fails, which of the paths through the table the search returns is not modelled beyond `GridSearch.AStar`.
- Slicing.TableAgrees: excludes LLDP; `Slicing.AgreesExactly` says when it holds for LLDP too.
- Decoder.LossyLink: that no decoder mixes generations is stated for runs in which the generations numbered 0 and 255 are not lost entirely; `Decoder.PureIff` gives the exact condition.
- Redundancy.SystematicRedundancy: rounding of floats is not modelled, and for qos >= 1 and at least one symbol the loop does not end (`Redundancy.ReachableBelowOne`).
- Transitions.RemoveWhileIterating: asks for a list without duplicates, as the path enumeration supplies it; with a path listed twice the loop may keep one copy.
- RemoteController.ControllerMain.RoutingIp: asks for a reachable destination and a flow that is new, and for latency maps that cover exactly the discovered links; without a path the source fails on an empty list.
- Congestion.UDPCCClient.CloseWindow: every division by zero ends the program, although quotients of library numbers would yield infinity instead; with positive round-trip times no such divisor is ever zero (`Congestion.EndStops`).
- GridSearch.AStar: the priority estimate is an arbitrary function, and the optimality of the returned path is not claimed.
- Asynchronous delivery: FlowMods take effect in the order in which they are issued, also on different switches; barriers, retransmission and lost control messages are not modelled.
- Identity comparison of switch ids in `get_paths` is read as equality.
- The reset branch of `checking_updates` and ARP routing of the routing controller, the bandwidth bookkeeping of `reroute`, sleeps and log output.
- `update_ip_udp_len`, `parse_udp`, `map_ports_to_path`, packet parsing and metadata packing: fixed offsets, or a second copy of a modelled loop.
- Kodo's field arithmetic: a payload is the coder that wrote it and its rank, and the decoder's answers are arbitrary; payload contents and padding are not modelled.
- The encoder's growing `frame_len`, the recoder, and OAM frames that are too short for their number.
- Time in the congestion client: end of the run after `max_time`, RTT clocks (samples are positive numbers), rewards and observations passed to the agent, `high_seq`; the agent's actions are arbitrary.
- The order of sending and receiving in the client's loop: events may come in any order, which includes the loop's.
- JSON keys of the Q table: states and actions are their own keys; loading a saved table, SARSA, TD(0), the direct-change mode, the unweighted bandit, table merging and random exploration are not part of the model.
- `filter_possible_paths_by_hops`: with its bound of 100 extra hops it removes nothing from networks of that size.
- Host mobility and spoofed source addresses at the learning switch; entries and learned ports never expire in the source either.
- Docker, Mininet, Ryu, socket and GNU Radio plumbing, the demonstration scripts, and the remaining applications.
