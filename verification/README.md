# A verified model of AntNet on ns-2

AntNet routes by ants. A node launches *forward ants* towards random destinations; each chooses its next hop at random
from the node's pheromone table and records the nodes it passes, with its trip times, in a memory of fixed size.
Loops are cut out of that memory in place. At its destination the ant turns round and, as a *backward ant*, retraces
the recorded path; every agent it passes reinforces the link the ant had taken, for every later node of the path.

The project models this protocol as a network of agents in which any number of ants is under way at once, and proves
what every run keeps. Beside it stand three components around the protocol: the local traffic model, the packet
pool and the interface queue whose length enters the choice of the next hop.

`dafny verify dfyconfig.toml` checks everything.

| file | content |
|---|---|
| `AntnetMath.dfy` | the numeric core (antnet_math.h), products and powers |
| `PheromoneRow.dfy` | one table row: updates, mass, closed form of a whole history |
| `Selection.dfy` | weights of the links and the draw among them |
| `RoutingTable.dfy` | the table, changed in place (class `AntnetRtable`) |
| `AntMemory.dfy` | ant memory, last-exit loop erasure, trip times |
| `Ants.dfy` | what an agent does with one ant, as functions |
| `Agent.dfy` | the agent working in place on packet and table (classes `AntPacket`, `Antnet`) |
| `Network.dfy`, `Runs.dfy` | states, steps and runs of the network; the invariant and its proof |
| `Theorems.dfy`, `Steps.dfy`, `Retrace.dfy`, `Ledger.dfy`, `Overflow.dfy` | the main results about runs |
| `Scenarios.dfy`, `Witnesses.dfy` | concrete runs: an ant that completes, a dead end next to the destination |
| `Traffic.dfy` | the traffic model (class `TrafficModel`) |
| `PacketPool.dfy` | free list and reference counts (class `Pool`) |
| `Queues.dfy`, `InterfaceQueue.dfy` | the queue as a value and in place (class `PriQueue`) |
| `Wrappers.dfy` | `Option` |

A handler is written twice on purpose. The method in a class has the loops and assignments of the source; its
postcondition equates the new state with a function of the old one. The theorems are about that function.

A packet belongs to the handler it is delivered to until that handler sends it on, frees it or drops it. `AntPacket`
keeps account of this: which disposals there were, and what the packet was at the last one. Every handler is shown to
dispose of its packet exactly once and not to touch it afterwards (`HandledBy`). The one exception is a packet that no
branch of `recv` handles, which stays as it came; `DeliveriesAreDefined` shows that no run delivers one.

## What the model assumes

- Addresses are 0..N-1. Links are duplex, without self-links; a neighbour list has no repeats and is fixed before
  `start`. An agent is started at most once; `SecondStartDoublesRows` shows what a second start would do.
- Every agent has its own reinforcement factor with 0 <= r <= 1. Doubles are reals.
- A step of the network starts an agent, launches an ant, delivers an ant to its next hop, or loses it, in any order.
  Clock readings, queue lengths and forwarding counters are arbitrary in every step. The random generator is any
  function that yields a value of [0, t) when asked for one below t; the destination of an ant is any node but its
  origin.
- The direction field, not the packet type, tells forward from backward ants, and the source address of the IP header
  is the previous hop. Both follow the code.
- Reads past the end of an ant's memory have no meaning in C++. The model lets such a delivery end as `Undefined` and
  proves that no run contains one. The same holds for a delivery to an address outside the network.
- The base classes of ns-2 are not part of this model. A `PacketQueue` is a sequence; `Queue::recv` enqueues and, when
  the queue is not blocked, sends the head; the link calls back when it is free.
- The packet pool is used as its callers must: packets come from `alloc`, only live packets are copied or
  reference-copied, and a packet whose last reference is given up is not scheduled. Freeing too often is allowed.
- The traffic model gets an ant memory without repeats and with strictly increasing trip times, in which the agent's
  own node is followed by another. `BackwardAntsFeedTraffic` shows that backward ants bring such memories whenever
  every hop took time. `sqrt` is any function that gives a non-negative root of a non-negative number.

## Where code and documentation part

The model follows the code.

- The comment on `link_probability` says that the probabilities of all links sum to 1 and tells the caller to put 1 for
  an empty queue total. With all queues empty they then sum to (1 + 0.45 n) / (1 + 0.45 (n - 1)) instead. `calc_next`
  draws below the actual total, so the choice stays proportional (`TotalWeight`, `DrawsAreProportional`).
- A dead end is described as the case where the only candidate link is the one the ant came by. That is exact for
  r < 1. With r = 1 the last reinforcement of a row takes all its pheromone, and an ant can be freed next to a usable
  neighbour: `DeadEndsExactly` gives the condition for every r, and `DeadEndWithFullReinforcement` a run in which it
  happens one hop from the destination. A launch is never affected (`LaunchDeadEndsExactly`).
- Backward ants keep the packet type of a forward ant (`AntsAreWellFormed`).
- In `PriQueue::recv` the labels for DSR, MESSAGE, TORA and AODV fall through to the direction test meant for ants, so
  those protocols are preferred only in upward packets (`Preferred`).
- With head drop, an ordinary arrival at a full queue evicts the most recent preferred packet if there is one, since
  those stand at the front (`WhatOverflowDrops`).
- The packet limit of the queue is one less than `qlim_`: a queue of `qlim_ - 1` packets counts as full
  (`EveryQueueRun`), while `shrink_queue` stops at `qlim_` (`ShrinkQueue`).
- `WIN_LEN` is not used by `update_traffic`: observation windows grow without bound.
- The variance that `update_traffic` keeps starts as a trip time and is squared on every update (`VarianceExactly`); it
  is no variance in the statistical sense, but it is never negative (`TrafficBounds`).
- A packet of its own that comes back to an agent unforwarded is neither freed nor sent on by `recv`
  (`OwnPacketsAreNotHandled`). No run delivers one.

## Model

| member | source | states |
|---|---|---|
| Theorems.RowsAreDistributions | antnet.cc:517-593 | in every reachable state, under any interleaving, each table row has non-negative entries over exactly the node's links in order and sums to exactly 1; a started agent with neighbours has a row for every other node and for nothing else |
| Theorems.PheromoneInClosedForm | antnet_rtable.cc:189-203 | in every reachable state each entry equals (1-r)^n/neighbours + r times the sum of (1-r)^age over the updates of its link; with r < 1 it is at least the first term, which is positive |
| Theorems.DrawsAreProportional | antnet_rtable.cc:104-178 | in every reachable state calc_next, for every draw, takes a link other than the parent's exactly if the draw lies in a half-open interval as wide as the weight of the link; the weights are those of pheromone and queue lengths and sum to 1, or to (1+0.45n)/(1+0.45(n-1)) with all queues empty; the fallback after the loop is not reached when the total is positive |
| Steps.LaunchSends | antnet.cc:169-209 | in every reachable state a launch at a node with neighbours sends exactly one ant, with the destination drawn, the current time, the node's sequence number and the node itself as its memory, along the link that its draw selects from the row of that destination; at an isolated node the ant is freed |
| Steps.DeliveryDraws | antnet.cc:306-326 | a forward ant sent on short of its destination takes the link that its draw selects from the row of its destination, the previous hop left out |
| Steps.AntsServeTheirDestination | antnet.cc:176-187 | in every later state of every run a launched ant still has the origin, destination, start time and sequence number of its launch, and if it completes, its memory runs from that origin to that destination |
| Steps.FateOfDelivery | antnet.cc:215-258 | a delivery drops the packet exactly if it is a forward ant with 16 other nodes in memory, frees it exactly if it is a forward ant stuck short of its destination or a backward ant at its origin, and sends it on otherwise |
| Steps.SequenceNumbers | antnet.cc:179 | after every run the sequence number of a node is the number of its launches modulo 256 |
| Steps.OwnPacketsAreNotHandled | antnet.cc:142-151 | a packet whose previous hop is the receiver makes no update; it is dropped if it was forwarded and left alone otherwise |
| Steps.GuardIsExact | antnet.cc:366-390 | backward_ant_pkt drops exactly at nodes that are no entry of the memory but the first; elsewhere the ant goes to the entry before the node's own |
| Theorems.MemoryIsLoopErasure | antnet.cc:265-301 | the memory of any ant in flight is a repeat-free path of real links and the last-exit loop erasure of its walk, which is unique |
| Theorems.TripTimesSurviveErasure | antnet.cc:268-295 | the last trip time is the time since launch; differences are the delays of the kept hops; the elapsed time is the first trip time plus the kept delays; positive delays give strictly increasing trip times |
| Theorems.AntsAreWellFormed | antnet.cc:215-258 | an ant in flight is a forward ant that remembers origin to previous hop and not its destination, or a backward ant at a non-last entry of a frozen memory with exactly the later entries retraced and updated; its last hop was a real link and its packet type is that of the launch |
| Theorems.OnlyExpectedEndings | antnet.cc:265-396 | in every run an ant ends completed, as a dead end, lost, or with a full memory, the last only in networks of more than MAX_NUM_NODES nodes |
| Theorems.DeliveriesAreDefined | antnet.cc:361-384 | no delivery in a reachable state reads outside the memory, takes the guard for a negative index, is dropped as a routing loop or is left unhandled |
| Theorems.BackwardAntsFeedTraffic | antnet.cc:421-436 | every backward ant brings what update_traffic relies on, provided every hop took time |
| Theorems.DeadEndsExactly | antnet.cc:306-318 | for every r, a delivery frees an ant as a dead end if and only if it is a forward ant short of its destination, with room in memory, at a node that was not started, or whose only neighbour is the previous hop, or where r = 1, the row's last reinforcement was that of the previous hop, and the one other link holds all queued packets |
| Theorems.RowDeadEnd | antnet_rtable.cc:151-159 | the same condition for a row with any history of updates |
| Theorems.LaunchDeadEndsExactly | antnet.cc:194-199 | for every r, a launch is freed on the spot if and only if the node has no neighbours |
| Witnesses.DeadEndWithFullReinforcement | antnet_rtable.cc:157-159 | with r = 1, a run of three nodes in which an ant is freed as a dead end at a neighbour of its destination |
| Witnesses.LineCompletes | antnet.cc:215-258 | in a line of 2 <= n <= MAX_NUM_NODES nodes an ant launched to the far end completes after 2(n-1) deliveries with all n nodes in memory |
| Theorems.FullRowIsNoDeadEnd | antnet_rtable.cc:151-159 | when the parent is not in a normalised row the choice is never the parent, whatever the queues |
| Theorems.AntsAreConserved | antnet.cc:169-396 | in every run: ants launched = in flight + completed + dead ends + dropped for a full memory + lost |
| Retrace.CompletedJourney | antnet.cc:243-257 | a completed ant of m entries, whose memory runs from the origin to the destination it was launched for, visited its path in exact reverse in m-1 hops, and update was called m(m-1)/2 times: for each i < l < m once at entry i for destination entry l along entry i+1, and never otherwise |
| Retrace.BackwardAntsArrive | antnet.cc:361-396 | from any reachable state, whatever else happens, a backward ant at entry k that is not lost is at entry k-j after j deliveries and completed after k+1 |
| Ledger.TablesMatchJourneys | antnet.cc:517-543 | in every reachable state the table of a node received an update exactly as often as there are ants, under way or ended, that made it, and updates of other nodes never |
| Ledger.UpdatesComeFromAnts | antnet.cc:523-542 | every update in a table was made by an ant whose memory is a path of real links from this node over the reinforced link to the destination |
| Ledger.CompletedJourneyIsBooked | antnet.cc:243-257 | each update a completed ant owed is in the table of the node where it was due |
| Ledger.EveryRunIsBooked | antnet.cc:517-543 | after every run the updates in all tables and in the logs of all ants are the same multiset, and every agent that sent an ant on has been started |
| Retrace.OwedOnce | antnet.cc:535-542 | over a journey each owed update occurs exactly once |
| Retrace.OnlyOwed | antnet.cc:535-542 | every update of a journey is an owed one |
| Overflow.MemoryBoundIsExact | antnet.cc:551-562 | the memory-full drop is unreachable in all networks of n nodes if and only if n <= 16 |
| Overflow.LongLineFillsMemory | antnet.cc:286-292 | in a line of more than MAX_NUM_NODES nodes a concrete run drops an ant for its full memory |
| Runs.EveryRun | antnet.cc:137-396 | the network invariant holds after every sequence of steps |
| Runs.StepKeepsInv | antnet.cc:137-396 | every enabled step keeps the invariant |
| Runs.DeliveryOutcome | antnet.cc:215-258 | a delivery makes updates along real links only and leaves a well-formed ant or an expected ending |
| Network.ForwardDelivery | antnet.cc:226-242 | a forward ant's delivery makes no update; the ant goes on well-formed, dies in a dead end, or is dropped for a full memory in a large network |
| Network.Arrival | antnet.cc:333-355 | at its destination an ant has at least two entries, so the index of the last but one is never negative, and it turns round into a well-formed backward ant |
| Network.BackwardDelivery | antnet.cc:243-257 | a backward ant's delivery makes exactly the updates of its entry, then moves one entry back, or completes at entry 0 |
| Network.NextHopIsLink | antnet_rtable.cc:104-178 | in every state the invariant allows, calc_next returns the parent or a real neighbour |
| Network.NodeRows | antnet.cc:574-589 | the rows of an agent are its uniform rows after the updates it received, and they are distributions |
| AntMemory.MemorizeErases | antnet.cc:265-301 | one call turns the loop erasure of a walk, with its trip times, into that of the walk one visit longer |
| AntMemory.ErasureUnique | antnet.cc:270-280 | a walk has only one last-exit loop erasure |
| AntMemory.ErasureHasNoRepeats | antnet.cc:270-280 | a loop erasure visits no node twice |
| AntMemory.ElapsedTime | antnet.cc:268-279 | elapsed time = first trip time + delays of the kept hops |
| AntMemory.TripsIncrease | antnet.cc:268-279 | positive hop delays make the trip times strictly increasing, whatever was cut |
| AntMemory.MemorySuffices | antnet.cc:286-292 | among at most MAX_NUM_NODES addresses a full memory already holds the receiving node |
| PheromoneRow.UpdateKeepsMassIff | antnet_rtable.cc:194-201 | an update of a normalised row keeps the sum 1 if and only if r = 0 or the reinforced link occurs in it exactly once |
| PheromoneRow.UpdateKeepsDistribution | antnet_rtable.cc:189-203 | for 0 <= r <= 1 and a link of the row an update keeps the row a distribution |
| PheromoneRow.HistoryKeepsDistribution | antnet_rtable.cc:189-203 | so does every sequence of updates |
| PheromoneRow.UniformIsDistribution | antnet.cc:579-588 | the initial row of a node with neighbours is a distribution |
| PheromoneRow.ClosedForm | antnet_math.h:58-67 | an entry after any history of updates, in closed form |
| PheromoneRow.RepeatedReinforcement | antnet_math.h:58-60 | n reinforcements of one link shrink its distance to 1 by exactly (1-r)^n |
| PheromoneRow.NoStarvation | antnet_math.h:65-67 | with r < 1 no link of a row that started uniform runs dry |
| PheromoneRow.LastReinforcementTakesAll | antnet_math.h:58-67 | with r = 1 all the pheromone of a row is on the link of its last reinforcement |
| Selection.PickPartitions | antnet_rtable.cc:163-177 | the draws below the total are partitioned into half-open intervals, one per link other than the parent's, each as wide as its weight |
| Selection.TotalWeight | antnet_math.h:49-53 | the sum of all weights of a normalised row, in both cases of the queue total |
| Selection.CalcNextInRowDeadEnd | antnet_rtable.cc:157-177 | calc_next returns the parent if and only if every other link has no pheromone and holds the whole non-empty queue total; otherwise it returns a link of the row |
| Selection.WeightOf | antnet_rtable.cc:150-152 | weights are never negative, and zero exactly for such links |
| Selection.WeightExactly | antnet_rtable.cc:135-152 | the weight w of a link with pheromone ph and queue q: (1+0.45(n-1)) Q w = ph Q + 0.45 (Q-q) for a queue total Q > 0, and (1+0.45(n-1)) w = ph + 0.45 for empty queues |
| Selection.BetterLinkWeighsMore | antnet_math.h:49-53 | a link with at least the pheromone and at most the queue of another weighs at least as much |
| Selection.CumulativeWithoutParent | antnet_rtable.cc:149-155 | when the parent is not in the row the drawn total is the sum of all weights |
| RoutingTable.AntnetRtable.AddEntry | antnet_rtable.cc:51-65 | appends to the row of the destination, or makes it; other rows stay |
| RoutingTable.AntnetRtable.Update | antnet_rtable.cc:189-203 | in place: the row of the destination becomes its update, other rows stay, an absent row stays absent |
| RoutingTable.AntnetRtable.CalcNext | antnet_rtable.cc:104-178 | the three loops together compute the choice that the selection lemmas describe |
| RoutingTable.AntnetRtable.QueueLengths | antnet_rtable.cc:135-142 | every queue is looked up once; the total is their sum |
| RoutingTable.AntnetRtable.LinkWeights | antnet_rtable.cc:148-155 | every weight, and their total without the parent's |
| RoutingTable.AntnetRtable.Sample | antnet_rtable.cc:163-177 | the first link, the parent's skipped, whose cumulative weight passes the draw |
| Ants.InitializedRows | antnet.cc:574-589 | initialize_rtable appends one uniform row for every other destination and changes nothing else |
| Ants.SecondStartDoublesRows | antnet_rtable.cc:61-64 | a second start gives every row each link twice and the sum 2 |
| Ants.RowsFollowHistory | antnet.cc:535-542 | every row depends only on the updates that named its destination, in their order; updates add no rows |
| Agent.Antnet.InitializeRtable | antnet.cc:548-593 | in place: the table after initialisation |
| Agent.Antnet.SendAntPkt | antnet.cc:169-209 | in place: the packet filled in and sent, or freed at a dead end before it is addressed; the sequence number wraps at 256 |
| Agent.AntPacket.Dispose | antnet.cc:169-396 | only a packet that is still owned can be sent on, freed or dropped, and then no longer is |
| Agent.Antnet.Recv | antnet.cc:137-163 | in place: table, packet and what becomes of it, in all branches; the packet is sent on, freed or dropped exactly once and is not touched afterwards, or is left unchanged and still owned |
| Agent.Antnet.RecvAntPkt | antnet.cc:215-258 | in place: the same for ants |
| Agent.Antnet.RecvForwardAnt | antnet.cc:226-242 | in place: memorized and turned round, sent on or freed; a packet that memorize dropped is afterwards exactly what it was when dropped, and dropped once |
| Agent.Antnet.RecvBackwardAnt | antnet.cc:243-257 | in place: the table updated, then the packet freed at the origin or sent one entry back, once |
| Agent.Antnet.Memorize | antnet.cc:265-301 | in place: truncation, shift of the trip times or append, as the erasure lemma needs, and the packet still owned; or a full memory, and the packet dropped unchanged; never writes past the array |
| Agent.Antnet.ForwardAntPkt | antnet.cc:306-327 | in place: the hop to the chosen link, or freed |
| Agent.Antnet.CreateBackwardAntPkt | antnet.cc:333-355 | in place: the ant turned round, memory untouched |
| Agent.Antnet.BackwardAntPkt | antnet.cc:361-396 | in place: the hop to the entry before the last one for this node, or dropped |
| Agent.Antnet.UpdateTable | antnet.cc:517-543 | in place: one update per later entry, all for the link to the next one; the search stops inside the memory |
| Traffic.UpdateKeepsTraffic | antnet.cc:436-487 | every call keeps the running statistics of each destination equal to the summary of its whole window, whose best time, mean and variance the next rows determine |
| Traffic.TrafficBounds | antnet.cc:460-480 | after every call the best time is the minimum of the window, the mean lies between its minimum and maximum, and the variance is not negative |
| Traffic.MeanIsExponentialAverage | antnet.cc:473-475 | the running mean is the average of all trip times, each with share 0.005 and aged by 0.995, in closed form |
| Traffic.VarianceExactly | antnet.cc:476-483 | the variance of one trip time is that trip time; a further trip time x turns variance v at mean mu into 0.995 v^2 + 0.005 (x-mu)^2 |
| Traffic.PushedAt | antnet.cc:436-452 | a call appends to the window of each later node the one trip time to it, and leaves all other windows |
| Traffic.TripsMeasureTravel | antnet.cc:431-440 | successive trip times differ by the delay of the hop that the ant made on its last exit from the node between |
| Traffic.FactorIsLegal | antnet.cc:496-506 | the test before the division catches exactly the zero denominator; r always lies in [0, 1] and is 0 only there |
| Traffic.FactorExactly | antnet.cc:503-506 | r tt = 0.7 best when the upper bound is the best time; otherwise (r - 0.7 best/tt) times (upper-best + tt-best) is 0.3 (upper-best) |
| Traffic.UpperBoundExactly | antnet.cc:499-502 | the upper bound exceeds the mean, and its excess squared times the size of the window is 1.7^2 times the variance |
| Traffic.UpperBoundAboveBest | antnet.cc:497-502 | the window is never empty at the division by its root, and the upper bound is at least the best time |
| Traffic.TrafficModel.UpdateTraffic | antnet.cc:421-512 | the three loops: windows, statistics, and for each later node a value of r that is the prescribed quotient, defined and in [0, 1] |
| Traffic.TrafficModel.RecordTrips | antnet.cc:436-452 | first loop: each trip time appended to the window of its destination |
| Traffic.TrafficModel.DigestTrips | antnet.cc:455-487 | second loop: mean, variance and best time of each destination |
| Traffic.TrafficModel.ComputeFactors | antnet.cc:490-511 | third loop: the values of r |
| Traffic.TrafficModel.BestTripTime | antnet.cc:461-468 | the minimum of a window |
| Traffic.TrafficModel.GetWinSize | antnet.cc:401-413 | the number of observations, 0 for an unknown destination |
| PacketPool.Pool.Alloc | common/packet.h:675-699 | hands out a packet that is not live, with fresh header, no data and a zero count; its assertions hold; no other packet changes; the free chain stays finite, repeat-free and made of dead packets |
| PacketPool.Pool.AllocWithData | common/packet.h:715-721 | the same packet as Alloc hands out, with a buffer of n bytes if n is positive |
| PacketPool.Pool.RefCopy | common/packet.h:481 | the same packet with one more reference |
| PacketPool.Pool.Copy | common/packet.h:748-758 | another packet with the same header and data and its own zero count |
| PacketPool.Pool.Free | common/packet.h:724-746 | gives up one reference; a packet with k reference copies returns to the head of the list with free number k+1, and further calls change neither the packet nor the list |
| Queues.EveryQueueRun | queue/priqueue.cc:81-200 | in every run the queue stands in service order, ordinary packets have left in arrival order and before all that are queued, every packet is in exactly one place, the length is at most max(qlim-1, 0) when packets are counted, and the link is idle only with nothing queued |
| Queues.ArrivalExactly | queue/priqueue.cc:117-142 | in every run an arrival joins at the front if preferred and at the back otherwise; exactly if there is no room one packet is lost, at the end prescribed; then an idle link sends the head and is busy, and a busy link sends nothing |
| Queues.ResumeExactly | queue/priqueue.cc:129-141 | a link that is free again sends exactly the head and is busy, or is idle if nothing is queued |
| Queues.TerminateExactly | queue/priqueue.cc:190-200 | in every run the queue ends up empty and its packets are dropped in queue order |
| Queues.FilterExactly | queue/priqueue.cc:144-160 | in every run filter removes exactly the queued packets that its predicate accepts |
| Queues.PlainFifo | queue/drop-tail.cc:85-134 | without preference, sent and queued packets together stand in arrival order in every run |
| Queues.WhoIsPreferred | queue/priqueue.cc:86-113 | ants are preferred exactly on their way back; so are DSR, MESSAGE, TORA and AODV packets; AOMDV always; nothing else |
| Queues.QueueShape | queue/priqueue.cc:117-142 | in every run the queue is H ++ L: preferred packets most recent first, then ordinary ones in arrival order |
| Queues.EvictsOrdinaryFirst | queue/priqueue.cc:121-127 | a preferred arrival evicts a preferred packet only when nothing ordinary is queued |
| Queues.WhatOverflowDrops | queue/drop-tail.cc:92-101 | an ordinary arrival at a full queue is dropped itself, or, with head drop, costs the most recent preferred packet if there is one and otherwise the oldest packet |
| InterfaceQueue.PriQueue.Recv | queue/priqueue.cc:81-114 | in place: which packets go to the front, and the queue, drops and transmission that follow |
| InterfaceQueue.PriQueue.RecvHighPriority | queue/priqueue.cc:117-142 | in place: head insertion, eviction of the tail, transmission |
| InterfaceQueue.PriQueue.Enque | queue/drop-tail.cc:85-105 | in place: append, or head or tail drop, for both ways of counting |
| InterfaceQueue.PriQueue.Deque | queue/drop-tail.cc:128-134 | takes the head, or nothing from an empty queue |
| InterfaceQueue.PriQueue.Filter | queue/priqueue.cc:144-160 | the in-place index loop tests each packet exactly once, in queue order, and leaves exactly the order-preserving subsequence that the predicate rejects |
| InterfaceQueue.PriQueue.FilterFor | queue/priqueue.cc:162-186 | takes out the first packet for a next hop, and reports one exactly when there is one |
| InterfaceQueue.PriQueue.Terminate | queue/priqueue.cc:190-200 | drops every packet, in order |
| InterfaceQueue.PriQueue.ShrinkQueue | queue/drop-tail.cc:108-126 | terminates and leaves exactly the longest prefix, or with head drop the longest suffix, within the packet or byte limit; the rest is dropped in order |
| InterfaceQueue.LongestPrefixExactly | queue/drop-tail.cc:115-125 | counting packets, the first qlim packets remain; counting bytes, what remains is within the limit and one packet more would not be |
| InterfaceQueue.LongestSuffixExactly | queue/drop-tail.cc:115-120 | the same for the last packets under head drop |

## Left out

- Queues.EveryQueueRun: no bound on bytes is stated, because with head drop or preferred packets the code does not
  keep one; the packet bound holds for a fixed limit, so `shrink_queue` is not an event of these runs.
- Overflow.LongLineFillsMemory: one topology for each size, the line, is enough for the exact bound.
- PacketPool.Pool.Copy: header bytes other than the fields that `alloc` sets are one sequence, and `txinfo_` and `time_`
  are not modelled.
- InterfaceQueue.PriQueue.FilterFor: packets are named by their arrival number, so unlinking by predecessor is the
  removal at a position.
- The retry loop of `calc_destination` (antnet_rtable.cc:85-92): its result is any node but the source, and nothing is
  said about how long it takes.
- Whether a forward walk ends: the agent never lowers the time-to-live field, so no such claim is made.
- The clock, `num_forwards`, link and MAC layers: arbitrary values in each step.
- Header fields that no decision depends on (packet length, packet size, error flag, address type, destination address of
  the IP header, time-to-live), and the port assertions in `recv_ant_pkt`.
- Packets that are not ants: the agent drops them.
- Rounding of floating-point numbers; the fallback of `calc_next` exists for it and is shown unreachable over reals.
- Tcl bindings, commands, timers, table and neighbour printing, debug output, tracing.
- `updateStats` and summary statistics of the queue.
- `p_info`, `PacketClassifier` and `PacketData` (common/packet.h): lookup tables and plain copying.
