# Verification of RCL's protocols

RCL is an RDMA communication library. The verbs calls are foreign code; around them sit a lock-free queue, a summation
pipeline, topology computations, two server protocols, a window protocol and three codecs. This project models those
parts and proves the properties they are built for. `dafny verify dfyconfig.toml` checks it.

- **Lock-free queue and summation** (`SpscQueue`, `ReduceSum`, `SummationPipeline`, `SummationPaths`,
  `SummationService`). The ring buffer is a machine of the atomic steps of its two threads; a load of the other side's
  index may return any value that index has had since the last one seen. Every interleaving refines a bounded FIFO.
  Two such machines and a background worker form the pipeline. The classes are the same code as objects, each call a
  run of those steps; the service object keeps to states that the pipeline reaches. A call that would spin or wait in
  the source returns `Blocked`.
- **Topologies** (`Cluster`, `Ring`, `DoubleBinaryTree`, `SubGroups`, `Butterfly`). Every node computes its neighbours
  from its own list. Proved is what holds globally: one cycle, two spanning trees, a butterfly, and as many incoming
  connections as each server waits for.
- **Allreduce rounds** (`AllreduceRounds`, `AllreduceProgress`, `RoundRobin`, `ServerLoop`). Sessions with posted
  receives and in-order messages, including the start-up, and the server's loop over its groups. Rounds are safe,
  served in order and always able to end. The ring, full-mesh and double-tree servers are the case of one group.
- **Full-mesh barrier** (`BlockingQueue`, `MeshBarrier`, `MeshProgress`, `MeshLateSession`, `SyncThread`). Clients,
  poll threads and the synchronization thread pass one go-ahead per session around. The thread reads the number of
  sessions once, when it starts (`max_QP`, RDMAServer.cpp:184), but releases whatever the group holds by then; the
  barrier is proved for the sessions connected before that point, and sessions that join later are part of the runs.
- **Sliding window** (`ImmData`, `SlidingWindow`, `SlidingWindowProof`, `SlidingWindowRuns`, `SlidingProgress`,
  `SlidingAckWaits`, `SlidingEndpoints`). 128 buffer ids circulate between writes, the open batch and the acks. The
  sources keep this path behind an endless loop; it is modelled from a state with all ids outstanding in order. A
  message is copied out of its slot, and a chunk out of its buffer, only when it arrives, so reuse that came too early
  would show.
- **Codecs** (`IdBitmap`, `HexText`, `DestInfo`). The 256-bit id bitmap and the hex text of the connection handshake.

`Arith` and `Wrappers` hold shared arithmetic and result types. Threads interleave at atomic steps and see memory
sequentially consistently, except for the stale index loads of the queue; floating-point numbers are exact reals.

Where the code does less than its comments or callers suggest, the exact condition is proved:

- The size check of `extract_sub_groups` ends if and only if the width is at least 2 or there is one node
  (`SizeCheckEnds`); otherwise it goes on with the same value (`WidthOneNeverEnds`).
- For an odd number of nodes the last node of each tree's order names a parent that does not list it
  (`LocalViewsAgree`), and the node in the middle waits for no connection and is called by two (`ConnectionCounts`).
- `size()` called by a third thread is right if and only if, for the two counts it loaded, the pops do not exceed the
  pushes and these lead by less than a lap (`SizeIsDifference`, `BystanderSize`). Loads at different moments break
  this even on a queue that is empty at both (`BystanderIsOff`).
- The queue that "MUST be empty" before a release is so for every session connected before `max_QP` was read
  (`MustBeEmpty`). A later one gets go-aheads and is never collected: once it has had one, its token is never back at
  that check, and its queue may hold the block (`LateSessionIsNotEmpty`).
- Encoding an id that is already set clears its bit, so the id is lost (`TwiceIsLost`); a list comes back from the
  bitmap exactly if it is in cyclic order inside the window (`RoundTrip`).
- The 32-bit immediate gives its fields back exactly if the length is below 65536 (`PackParse`).
- The handshake text fills its buffer exactly if lid, qpn and psn have 16, 24 and 24 bits (`FillsMessage`).
- In the sliding window an ack can find no posted receive. This is so if and only if the client works through one ack
  with 127 more waiting (`AckWaitsOnlyBeforeRepost`); it happens in some run from every start state
  (`AckFindsNoReceive`). The client is then about to post a slot again.

## Model

| member | source | states |
|---|---|---|
| `SpscQueue.EveryRunIsFifo` | all_reduce_tree/summation_service/include/util/spsc_queue.h:68-170 | in every interleaving, with stale index loads: the elements handed back are a prefix of those pushed, at most capacity - 1 are held, and no step of either thread overwrites a live slot, reads or destroys an empty one, or leaves the array |
| `SpscQueue.StepRefinesFifo` | all_reduce_tree/summation_service/include/util/spsc_queue.h:68-170 | each atomic step leaves the abstract FIFO alone, appends the argument to a FIFO that is not full, or removes the oldest element and hands out exactly that one |
| `SpscQueue.SpinningLosesNothing` | all_reduce_tree/summation_service/include/util/spsc_queue.h:68-170 | in every run of the calls that spin, the arguments of all calls are the elements published and the one in hand, and every `blocking_pop` that is over has handed back an element |
| `SpscQueue.InvStep` | all_reduce_tree/summation_service/include/util/spsc_queue.h:68-170 | the representation invariant (indices, program points, views of the other side, contents of every slot within a lap) is kept by every step |
| `SpscQueue.RoomTest` | all_reduce_tree/summation_service/include/util/spsc_queue.h:74-83 | the test against any value of `tail_` the producer may load finds room exactly when the pops it shows leave fewer than capacity - 1 elements |
| `SpscQueue.DataTest` | all_reduce_tree/summation_service/include/util/spsc_queue.h:136-144 | the test against any value of `head_` the consumer may load finds an element exactly when the pushes it shows exceed the pops |
| `SpscQueue.FreshLoadsDecideExactly` | all_reduce_tree/summation_service/include/util/spsc_queue.h:86-144 | with a current load `try_emplace` fails exactly on a full queue and `front` returns null exactly on an empty one; with a stale load a success is still right |
| `SpscQueue.EndpointSize` | all_reduce_tree/summation_service/include/util/spsc_queue.h:172-181 | `size` called by the producer or the consumer, for any load of the other index: own count minus the count loaded, which bounds the length and equals it for a current load |
| `SpscQueue.SizeOfCounts` | all_reduce_tree/summation_service/include/util/spsc_queue.h:172-181 | the wrapped 64-bit difference with the lap correction is the difference of the two counts, for any two counts less than a lap apart |
| `SpscQueue.SizeIsDifference` | all_reduce_tree/summation_service/include/util/spsc_queue.h:172-181 | for any two counts: the result is their difference if and only if the pops do not exceed the pushes and these lead by less than a lap |
| `SpscQueue.BystanderSize` | all_reduce_tree/summation_service/include/util/spsc_queue.h:172-181 | a third thread that loads the two indices at any two moments of any run gets the difference of the two counts modulo the capacity, in 0..capacity - 1, and the difference itself exactly if that is in this range; loads at the same moment give the length |
| `SpscQueue.BystanderIsOff` | all_reduce_tree/summation_service/include/util/spsc_queue.h:172-181 | for every n there is a run with n elements passed through, whose queue is empty at both loads, and in which the result is n modulo the capacity, or -n modulo it for the loads in the other order |
| `SpscQueue.EmplaceAloneKeepsInv` | all_reduce_tree/summation_service/include/util/spsc_queue.h:86-105 | `try_emplace` run without interruption appends exactly when the queue holds fewer than capacity - 1 elements, and otherwise changes nothing |
| `SpscQueue.PopAloneKeepsInv` | all_reduce_tree/summation_service/include/util/spsc_queue.h:146-159 | `pop` run without interruption removes the oldest element, clears its slot and moves `tail_` on with wrap-around |
| `SpscQueue.SpscRing.Create` | all_reduce_tree/summation_service/include/util/spsc_queue.h:38-53 | the constructor throws exactly for a capacity below 2, and otherwise gives an empty queue |
| `SpscQueue.SpscRing.TryEmplace` | all_reduce_tree/summation_service/include/util/spsc_queue.h:86-105 | on the object: the result tells whether there was room, the contents grow by the argument exactly then, and the fields are those after the four atomic steps |
| `SpscQueue.SpscRing.Emplace` | all_reduce_tree/summation_service/include/util/spsc_queue.h:68-84 | returns exactly if there is room, and then appends; otherwise it spins and nothing changes |
| `SpscQueue.SpscRing.Front` | all_reduce_tree/summation_service/include/util/spsc_queue.h:136-144 | null exactly on an empty queue, else the oldest element; nothing changes |
| `SpscQueue.SpscRing.Pop` | all_reduce_tree/summation_service/include/util/spsc_queue.h:146-159 | on a non-empty queue: removes exactly the oldest element |
| `SpscQueue.SpscRing.BlockingPop` | all_reduce_tree/summation_service/include/util/spsc_queue.h:160-170 | returns exactly if there is an element, the oldest one, and removes it; otherwise it spins and nothing changes |
| `SpscQueue.SpscRing.Size` | all_reduce_tree/summation_service/include/util/spsc_queue.h:172-181 | the number of elements held |
| `ReduceSum.Reduce` | all_reduce_tree/summation_service/lib/summation_service.cpp:75-279 | for 2 to 20 blocks, block 0 becomes the elementwise sum of the blocks as they were, for two blocks written out, although it is an operand and blocks may coincide; its tail and, for other widths, everything stays |
| `ReduceSum.RowSumCat` | all_reduce_tree/summation_service/lib/summation_service.cpp:100-279 | the sum of rows laid side by side is the sum of their sums, and the sum of one row is the row |
| `ReduceSum.SumNowIsRowSum` | all_reduce_tree/summation_service/lib/summation_service.cpp:100-279 | the expression the loop evaluates on memory is the sum of the original rows as long as the element has not been written |
| `SummationPipeline.EverySyncIsSummed` | all_reduce_tree/summation_service/lib/summation_service.cpp:444-456 | in every interleaving and any order of element iterations, the k-th synchronization returns the k-th submitted entry, and at that moment block 0 holds the elementwise sum of its blocks as submitted, all else unchanged; for two blocks, every whole 4-byte element is the sum of the two |
| `SummationPipeline.PipelineInvStep` | all_reduce_tree/summation_service/lib/summation_service.cpp:444-456 | every step of user, worker and rings keeps the pipeline invariant, which says for each unsynchronized submission how far its sum has come in memory |
| `SummationPipeline.EveryRunConserves` | all_reduce_tree/summation_service/lib/summation_service.cpp:447-455 | in every run finished, held and waiting entries are, in this order, exactly the submitted ones not yet synchronized; there are at most 2 * (capacity - 1) + 1 of them, and the two threads block each other exactly at that number with a summed entry in hand |
| `SummationPipeline.BlockedOnlyAtBound` | all_reduce_tree/summation_service/lib/summation_service.cpp:447-455 | below 2 * (capacity - 1) + 1 unsynchronized entries a submission has room or the worker has a step that moves it |
| `SummationPipeline.DeliveringMoves` | all_reduce_tree/summation_service/include/util/spsc_queue.h:74-83 | the delivering worker has a step that moves it exactly when the output ring is not full |
| `SummationPipeline.ElementAdvances` | all_reduce_tree/summation_service/lib/summation_service.cpp:100-279 | one iteration of the parallel loop, in any order, turns exactly one more element of block 0 into the original sum |
| `SummationPipeline.MaySubmitIs` | all_reduce_tree/summation_service/include/summation_service.h:92-106 | what the runs ask of the user, block by block: existing blocks, of which the first of either entry is none of the other one's |
| `SummationService.Service.constructor` | all_reduce_tree/summation_service/lib/summation_service.cpp:16-26 | a service starts in the pipeline's first state, with two empty rings of 1024 slots |
| `SummationService.Service.SubmittedComputeTask` | all_reduce_tree/summation_service/include/summation_service.h:92-106 | returns exactly if the input ring is not full: the entry is its newest, nothing else changes, and the state stays one the pipeline reaches; on a full ring it spins |
| `SummationService.Service.SyncComputeTask` | all_reduce_tree/summation_service/include/summation_service.h:107-113 | returns exactly if something is finished: the oldest entry not yet synchronized is taken and block 0 of it holds the sum of its blocks as submitted; otherwise it spins |
| `SummationService.Service.PeekComputeTask` | all_reduce_tree/summation_service/include/summation_service.h:114-121 | reports whether something is finished and, if so, takes the oldest one, with the same sum in memory |
| `SummationService.Service.FetchAndSum` | all_reduce_tree/summation_service/lib/summation_service.cpp:447-453 | returns exactly if something is waiting: the oldest entry is taken and its loop is done, with every other block unchanged |
| `SummationService.Service.WorkerTurn` | all_reduce_tree/summation_service/lib/summation_service.cpp:447-455 | one turn, or the rest of one that waited for room: the oldest entry taken in is summed in place, and gets to the output ring exactly if that has room; finished, held and waiting entries stay the same list |
| `SummationService.Service.Deliver` | all_reduce_tree/summation_service/lib/summation_service.cpp:454-455 | returns exactly if the output ring has room: the summed entry is its newest and the hand is empty |
| `SummationPaths.SyncPath` | all_reduce_tree/summation_service/include/summation_service.h:107-113 | five steps of the machine lead from a finished entry to the state without it, and the entry is the next submission, summed |
| `SummationPaths.LoopCall` | all_reduce_tree/summation_service/lib/summation_service.cpp:75-279 | a memory in which block 0 holds the sums and all else is as before is one the machine reaches from the taken entry by its element steps, with the entry about to be delivered |
| `Cluster.LessIsLexicographic` | all_reduce_tree/networking_service/include/network_service.h:36-40 | the order of addresses: a proper prefix comes first, otherwise the first differing character decides |
| `Cluster.ViewsAgree` | all_reduce_tree/networking_service/src/network_service.cpp:181-183 | sorting a node's own list with the node itself gives the same list at every node, whatever the order of the list |
| `Cluster.OthersAreSorted` | all_reduce_tree/networking_service/include/config.h:274-283 | a command line naming every node once, in any order, leaves a node with the sorted list of the others |
| `Cluster.OthersInGeneral` | all_reduce_tree/networking_service/include/config.h:274-283 | any command line, with repetitions: a node keeps every argument but itself, as often as it occurs, sorted |
| `Cluster.BuildCluster` | all_reduce_tree/networking_service/include/config.h:274-283 | the list kept after all calls of `add_to_cluster` |
| `Ring.GetNeighboringNode` | all_reduce_tree/networking_service/include/network_service.h:31-49 | the fatal error exactly for an empty list; otherwise the first listed address that follows the own one lexicographically, or the first of all |
| `Ring.HopIsSuccessor` | all_reduce_tree/networking_service/include/network_service.h:31-49 | the next hop computed from the own list is the cyclic successor in the sorted list of all |
| `Ring.RingIsOneCycle` | all_reduce_tree/networking_service/include/network_service.h:31-49 | iterating the next hop from any node meets every node at exactly one number of hops below n and returns after n |
| `Ring.OneConnectionPerServer` | all_reduce_tree/networking_service/src/network_service.cpp:128-131 | every node is the next hop of exactly one node, another one, so each ring server gets the one connection it waits for |
| `Ring.RingFromCommandLine` | all_reduce_tree/networking_service/include/network_service.h:31-49 | the same ring results from every order of the command line at any node |
| `DoubleBinaryTree.GetIndex` | all_reduce_tree/networking_service/include/double_binary_tree.h:14-30 | the first position holding the node, or -1 exactly if there is none |
| `DoubleBinaryTree.GetConnection` | all_reduce_tree/networking_service/include/double_binary_tree.h:32-51 | parents and children are those at half, and at twice and twice plus one, of the node's own position |
| `DoubleBinaryTree.GetTreeNeighbors` | all_reduce_tree/networking_service/include/double_binary_tree.h:53-91 | from any order of its own list a node gets its parents and children in the ascending and the descending order of all nodes |
| `DoubleBinaryTree.ParentAtPlace` | all_reduce_tree/networking_service/include/double_binary_tree.h:43-48 | q's computed parent list holds p exactly if half of q's place in that tree is the place of p |
| `DoubleBinaryTree.LocalViewsAgree` | all_reduce_tree/networking_service/include/double_binary_tree.h:32-91 | in either tree p lists q as a child exactly when q names p as its parent, unless n is odd and q is last in that tree's order |
| `DoubleBinaryTree.OneSpanningTree` | all_reduce_tree/networking_service/include/double_binary_tree.h:32-51 | the listed edges number n - 1 for even n and n - 2 for odd n; every place but the root, and but the last one for odd n, is listed by exactly one parent |
| `DoubleBinaryTree.EveryPlaceReachesRoot` | all_reduce_tree/networking_service/include/double_binary_tree.h:43-48 | following the named parents reaches the root after exactly `Hops` steps and not before |
| `DoubleBinaryTree.HopsIsLog` | all_reduce_tree/networking_service/include/double_binary_tree.h:43-48 | the number of parent steps from place p is floor(log2 p) + 1 |
| `DoubleBinaryTree.LeafInExactlyOneTree` | all_reduce_tree/networking_service/include/double_binary_tree.h:53-91 | for even n exactly one of the two children lists a node computes is empty |
| `DoubleBinaryTree.NoSharedEdge` | all_reduce_tree/networking_service/include/double_binary_tree.h:53-91 | no node names the same parent in both trees, for any n |
| `DoubleBinaryTree.ConnectionCounts` | all_reduce_tree/networking_service/src/network_service.cpp:321-334 | the nodes whose computed parent lists name p, counted over both trees, are as many as the server of p waits for, 2, or 1 at the two roots for even n; for odd n exactly the middle node waits for none and is named twice |
| `DoubleBinaryTree.ExpectedIsListSize` | all_reduce_tree/networking_service/src/network_service.cpp:324-334 | the configured number of senders is the size of the two children lists the node computes |
| `SubGroups.CheckClusterSize` | all_reduce_tree/networking_service/src/network_service.cpp:186-200 | whenever it ends at all, it accepts exactly the powers w^k of the width, a single node with width 1 included |
| `SubGroups.SizeCheckEnds` | all_reduce_tree/networking_service/src/network_service.cpp:186-200 | the size check of a non-empty cluster ends if and only if the width is at least 2 or there is a single node |
| `SubGroups.WidthOneNeverEnds` | all_reduce_tree/networking_service/src/network_service.cpp:186-200 | for width 1 the check of a cluster of at least 2 nodes goes on for ever with the same value, and ends for smaller ones |
| `SubGroups.GroupIsClass` | all_reduce_tree/networking_service/src/network_service.cpp:210-227 | the stage-j group lists exactly the positions that share block and offset with p, each once and ascending |
| `SubGroups.MemberInCluster` | all_reduce_tree/networking_service/src/network_service.cpp:216-222 | every index computed for the first k stages of a cluster of w^k nodes is in range |
| `SubGroups.ExtractGroup` | all_reduce_tree/networking_service/src/network_service.cpp:213-222 | one stage's loop collects a full width of members, at the computed positions |
| `SubGroups.ExtractAllGroups` | all_reduce_tree/networking_service/src/network_service.cpp:210-227 | the stage loop ends with exactly k groups of w members |
| `SubGroups.ExtractSubGroups` | all_reduce_tree/networking_service/src/network_service.cpp:175-254 | from any order of the own list: the fatal error exactly for sizes that are no power of the width, else one group per stage, each the ascending list of the nodes that share block and offset with the own one, which is in it exactly if it is not to be filtered; none for a single node |
| `Butterfly.ViewsAgreeOnGroups` | all_reduce_tree/networking_service/src/network_service.cpp:210-227 | a lists b at stage j exactly when b lists a, and then both compute the same group |
| `Butterfly.OneCommonStage` | all_reduce_tree/networking_service/src/network_service.cpp:210-227 | two different nodes share a group in at most one stage |
| `Butterfly.PeersAreDistinct` | all_reduce_tree/networking_service/src/network_service.cpp:229-244 | the filtered groups of a node are disjoint, hold (w - 1) * k addresses and never its own |
| `Butterfly.GroupsNamePeers` | all_reduce_tree/networking_service/src/network_service.cpp:266-306 | the filtered groups, one after the other, name exactly those peers |
| `Butterfly.ExpectedEqualsReceived` | all_reduce_tree/networking_service/src/network_service.cpp:266-306 | the (w - 1) * k connections a server expects are exactly those of the nodes that list it |
| `Butterfly.FindGroup` | all_reduce_tree/networking_service/src/rdma_server.cpp:404-419 | the server's search gives the first group that lists the peer and fails exactly if none does |
| `Butterfly.LookupGivesStage` | all_reduce_tree/networking_service/src/rdma_server.cpp:404-420 | the only group of p's server that lists q is the stage at which q calls p |
| `Butterfly.HeldIsBlock` | all_reduce_tree/networking_service/src/network_service.cpp:210-227 | after j stages of exchange a node has combined exactly the aligned block of w^j sorted nodes holding it, each once |
| `Butterfly.EveryoneHoldsEverything` | all_reduce_tree/networking_service/src/network_service.cpp:210-227 | after the last stage every node holds every contribution exactly once |
| `AllreduceRounds.ReceiveAlwaysPosted` | all_reduce_tree/networking_service/src/rdma_adapter.cpp:298 | in every run a message in flight has a receive posted at its destination, none ever arrives without one, and a session has at most one of block in flight, place in a ready queue, control message in flight |
| `AllreduceRounds.SessionInvPolls` | all_reduce_tree/networking_service/src/rdma_session.cpp:117-155 | handling any completion at either end keeps one receive posted or consumed and one token per session |
| `AllreduceRounds.SessionInvWrite` | all_reduce_tree/networking_service/src/rdma_adapter.cpp:298 | an arriving block finds a posted receive and keeps the session's invariant |
| `AllreduceRounds.SessionInvCtrl` | all_reduce_tree/networking_service/src/rdma_adapter.cpp:298 | an arriving control message finds a posted receive and keeps the session's invariant |
| `AllreduceRounds.InvStep` | all_reduce_tree/networking_service/src/rdma_server.cpp:96-165 | every step of clients, channel and server keeps the invariant of sessions, queues and rounds |
| `AllreduceRounds.SessionsAreConserved` | all_reduce_tree/networking_service/src/rdma_server.cpp:96-165 | every session set up is in exactly one of the two queues of its own group, once, and in no other group |
| `AllreduceRounds.NoReleaseBeforeAllCollected` | all_reduce_tree/networking_service/src/rdma_server.cpp:431-443 | when any session is released, the blocks of all sessions of all groups of that round have been collected; each round sends one control message per session |
| `AllreduceProgress.EveryRunGoesOn` | all_reduce_tree/networking_service/src/rdma_server.cpp:431-443 | every run, during the start-up as well, extends to the end of its round and of any later one, with every session collected and released once per round |
| `AllreduceProgress.GroupsInOrder` | all_reduce_tree/networking_service/src/rdma_server.cpp:431-443 | in every run: when a session is polled, all groups before its own have been collected and none after; when one is released, all groups after its own have been released and none before |
| `AllreduceProgress.SessionsInTurn` | all_reduce_tree/networking_service/src/rdma_server.cpp:96-165 | a session polled or released makes way for the next one and is last in the queue it goes to |
| `AllreduceProgress.CompletionsInOrder` | all_reduce_tree/networking_service/src/rdma_session.cpp:117-155 | completions are handled in the order in which they came |
| `ServerLoop.PollFront` | all_reduce_tree/networking_service/src/rdma_server.cpp:103-142 | one turn of the loop moves the front session to the ready queue with a new receive exactly on an immediate completion, else to its own queue's end |
| `ServerLoop.PollNext` | all_reduce_tree/networking_service/src/rdma_server.cpp:103-142 | what one turn of the loop keeps, and that it takes the loop nearer to its end |
| `ServerLoop.DoReduce` | all_reduce_tree/networking_service/src/rdma_server.cpp:96-146 | ends whenever each immediate completion comes after finitely many polls; the sessions move to the ready queue in the order of the polls they need, ties in the order of the queue, each with one new receive, its polls used up to the first immediate one |
| `RoundRobin.OrderIsSorted` | all_reduce_tree/networking_service/src/rdma_server.cpp:96-146 | polling a queue round-robin is a stable sort by the number of polls needed |
| `ServerLoop.AfterIsSuffix` | all_reduce_tree/networking_service/src/rdma_server.cpp:108-135 | the polls consumed are those up to and including the first immediate completion |
| `ServerLoop.Broadcast` | all_reduce_tree/networking_service/src/rdma_server.cpp:147-165 | one control message per ready session, which goes back in flight in order |
| `ServerLoop.TreeRound` | all_reduce_tree/networking_service/src/rdma_server.cpp:431-443 | one round over all groups: every queue holds a permutation of its sessions again, each having got one receive and one control message, and no control message is sent before the last block is collected |
| `BlockingQueue.Queue.Push` | rdma_full_mesh_benchmark/blockQueue.h:18-25 | appends |
| `BlockingQueue.Queue.Pop` | rdma_full_mesh_benchmark/blockQueue.h:40-50 | returns exactly if there is an item, the oldest one, and removes it; otherwise it waits and nothing changes |
| `BlockingQueue.Queue.TryPop` | rdma_full_mesh_benchmark/blockQueue.h:62-72 | takes the oldest item, or reports that there is none |
| `MeshBarrier.TokenInOnePlace` | rdma_full_mesh_benchmark/RDMAServer.cpp:299-323 | in every interleaving the go-ahead of a session connected in time is in exactly one of q1, poll thread, wire or client, q2, synchronization thread; neither queue ever holds two items, and at most one immediate is on its wires |
| `MeshBarrier.MustBeEmpty` | rdma_full_mesh_benchmark/RDMAServer.cpp:225-235 | at the check before its release a session is without a go-ahead if and only if it connected before `max_QP` was read or never got one; a session connected in time then has an empty q2, although the bitmap still holds the old bits and earlier sessions may have come round again |
| `MeshLateSession.LateSessionIsNotEmpty` | rdma_full_mesh_benchmark/RDMAServer.cpp:184-235 | for any number of sessions connected in time there is a run in which a session that connected later has a block in q2 at that check |
| `MeshBarrier.RoundsAreABarrier` | rdma_full_mesh_benchmark/RDMAServer.cpp:199-238 | whenever a session is released, every session connected in time has had exactly one block collected per round so far and the later ones none; the released one, if connected in time, has had one go-ahead per round |
| `MeshBarrier.GoAheadsKeepStep` | rdma_full_mesh_benchmark/RDMAServer.cpp:187-235 | the numbers of go-aheads of any two sessions connected in time differ by at most one |
| `MeshBarrier.ReadyNumCountsBits` | rdma_full_mesh_benchmark/RDMAServer.cpp:203-237 | `ready_num` is the number of set bits, except between its own reset and that of the bitmap |
| `MeshBarrier.ReportIsInRange` | rdma_full_mesh_benchmark/RDMAServer.cpp:239-251 | when the report is made the time record holds exactly one entry more than `max_QP` |
| `MeshBarrier.EpochCountsRounds` | rdma_full_mesh_benchmark/RDMAServer.cpp:239-252 | in every run the epoch is 1 plus the number of rounds modulo 3997, so that every 3997th round ends with the report |
| `MeshProgress.EveryRunGoesOn` | rdma_full_mesh_benchmark/RDMAServer.cpp:199-253 | every run extends by any number of rounds, after which every session connected in time was collected once per round and has one go-ahead more |
| `MeshProgress.TokenMoves` | rdma_full_mesh_benchmark/RDMAServer.cpp:299-323 | whoever holds the go-ahead of a session the scan waits for can pass it on, one step nearer to q2 |
| `MeshBarrier.InvStep` | rdma_full_mesh_benchmark/RDMAServer.cpp:199-253 | every step of clients, poll threads and synchronization thread keeps the invariant |
| `MeshBarrier.InvStepSession` | rdma_full_mesh_benchmark/RDMAClient.cpp:258-279 | every step of client, wire and poll thread keeps the invariant, so the reply, the hand-over and the sending keep the session's single token |
| `MeshBarrier.InvJoin` | rdma_full_mesh_benchmark/RDMAServer.cpp:458-467 | a session that connects after `max_QP` was read keeps the invariant |
| `SyncThread.Synchronizer.constructor` | rdma_full_mesh_benchmark/RDMAServer.cpp:182-194 | cleared bitmap, epoch 1, and one signal to every q1 |
| `SyncThread.Synchronizer.ScanIndex` | rdma_full_mesh_benchmark/RDMAServer.cpp:203-216 | takes one item exactly if the bit is clear and q2 is not empty, and records it |
| `SyncThread.Synchronizer.ScanAll` | rdma_full_mesh_benchmark/RDMAServer.cpp:201-218 | a full scan, with any pushes of the poll threads between two indices: bits and queues afterwards, whether the round is complete, and the times recorded in the last epoch |
| `SyncThread.ScanCollects` | rdma_full_mesh_benchmark/RDMAServer.cpp:201-218 | what that scan does to each session: collected exactly if its bit is clear and a block is waiting by the time of its index, one block; what comes later stays in its queue |
| `SyncThread.Synchronizer.FinishRound` | rdma_full_mesh_benchmark/RDMAServer.cpp:218-253 | marks the time before the last epoch, signals every q1 once, clears count and bitmap, moves the epoch on or back to 1, and in the last epoch reports the differences to the start mark |
| `ImmData.SwapTwice` | rdma_full_mesh_benchmark/RDMAClient.cpp:463 | swapping bytes twice is the identity on 32-bit words |
| `ImmData.SwapReverses` | rdma_full_mesh_benchmark/RDMAClient.cpp:463 | the four bytes come out in the opposite order |
| `ImmData.PackParse` | rdma_full_mesh_benchmark/RDMAServer.cpp:159-176 | what `parse_from_imm_data` reads from the packed immediate are the packed fields exactly if the length is below 65536 |
| `ImmData.PackLayout` | rdma_full_mesh_benchmark/RDMAClient.cpp:445-463 | buffer, window and length take 8, 8 and 16 bits from the top, and the swapped word has the bytes the other way round |
| `ImmData.WireFields` | rdma_full_mesh_benchmark/RDMAServer.cpp:159-176 | which bytes of the immediate on the wire are buffer, window and length |
| `SlidingWindowRuns.EveryRunCirculates` | rdma_full_mesh_benchmark/RDMAServer.cpp:337-426 | in every run: no chunk fails its check, a receive is posted for every write in flight, acked tokens, queued and flying ids concatenate to a rotation of 0..127, the window is the start plus one per full cycle, queued immediates parse to what the client packed, the regions of outstanding writes are disjoint, the next message slot to be opened is named in no ack, and some step is possible |
| `SlidingWindowRuns.TokensRotate` | rdma_full_mesh_benchmark/RDMAClient.cpp:535-563 | tokens still to process, waiting acks, acks in flight, open batch and writes in flight concatenate to a rotation of 0..127 |
| `SlidingWindowRuns.OutstandingDisjoint` | rdma_full_mesh_benchmark/RDMAClient.cpp:465 | the buffer regions of any two outstanding writes, as read from a completion or as posted, do not overlap |
| `SlidingWindowRuns.SlotNotReusedEarly` | rdma_full_mesh_benchmark/RDMAServer.cpp:365-370 | the slot the next write would open is named by an id that is in no waiting, flying or open ack any more |
| `SlidingWindowRuns.AckWaitsOnlyBeforeRepost` | rdma_full_mesh_benchmark/RDMAClient.cpp:571 | an ack in flight has no posted receive if and only if 127 acks are waiting and one is being worked through; then all ids have been acked, that one is used up, and posting its slot again is the next step |
| `SlidingAckWaits.AckFindsNoReceive` | rdma_full_mesh_benchmark/RDMAClient.cpp:508-571 | from every start state there is a run to a state with an ack in flight and no posted receive |
| `SlidingWindowRuns.NeverStuck` | rdma_full_mesh_benchmark/RDMAServer.cpp:358-425 | some step is possible in every reachable state |
| `SlidingProgress.TokensKeepMoving` | rdma_full_mesh_benchmark/RDMAServer.cpp:337-426 | in every run, whatever the interleaving, any 770 steps in a row reuse at least one token |
| `SlidingProgress.BatchOpens` | rdma_full_mesh_benchmark/RDMAServer.cpp:369-374 | a write without an open batch opens one in the slot of its id, with its window and this one token |
| `SlidingProgress.BatchFills` | rdma_full_mesh_benchmark/RDMAServer.cpp:395-407 | a write with an open batch adds its token, and the batch is sent exactly with the 48th |
| `SlidingProgress.ChannelsInOrder` | rdma_full_mesh_benchmark/RDMAServer.cpp:337-426 | writes, acks, completions and posted receives are taken in the order in which they came |
| `SlidingWindowRuns.InitialExists` | rdma_full_mesh_benchmark/RDMAClient.cpp:525-571 | the state the client starts from, with receive slots in the order 1 to 127 and 0, is a start state, for every pair of windows |
| `SlidingWindowProof.InvTakeWrite` | rdma_full_mesh_benchmark/RDMAServer.cpp:358-407 | taking a write keeps the invariant: the chunk is marked, and the batch written to is no ack in flight |
| `SlidingWindowProof.InvAckArrives` | rdma_full_mesh_benchmark/RDMAClient.cpp:535-571 | an arriving ack overwrites no message that is waiting or being worked through |
| `SlidingWindowProof.InvSendToken` | rdma_full_mesh_benchmark/RDMAClient.cpp:545-562 | reusing a token keeps the invariant; the window slides exactly after id 127 |
| `SlidingWindowProof.NextToken` | rdma_full_mesh_benchmark/RDMAClient.cpp:547 | the next token is the number of the write it is used for, modulo 128 |
| `SlidingWindowProof.SendTokenWrite` | rdma_full_mesh_benchmark/RDMAClient.cpp:545-558 | the write posted for a token has buffer, window and offset its number predicts |
| `SlidingEndpoints.Client.WriteRemote` | rdma_full_mesh_benchmark/RDMAClient.cpp:438-481 | posts exactly one write, at 16384 bytes per buffer and 2 MiB per window, and for ids of one byte the receiver reads buffer, window and length back from its immediate if and only if the length is below 65536; the region it computes from them is then the one written |
| `SlidingEndpoints.Client.ReuseAll` | rdma_full_mesh_benchmark/RDMAClient.cpp:545-563 | the loop over an ack's tokens is one machine step per token |
| `SlidingEndpoints.Client.OnCompletion` | rdma_full_mesh_benchmark/RDMAClient.cpp:508-573 | working through an ack is exactly the machine's run of one start, one send per token, and the repost of the slot |
| `SlidingEndpoints.Server.ParseFromImmData` | rdma_full_mesh_benchmark/RDMAServer.cpp:159-176 | the three fields, by the bytes of the immediate |
| `SlidingEndpoints.Server.ProcessMessage` | rdma_full_mesh_benchmark/RDMAServer.cpp:578-615 | ends the process exactly if the first or the last byte of the chunk is not the token, and otherwise clears both; no other byte changes |
| `SlidingEndpoints.Server.HandleWrite` | rdma_full_mesh_benchmark/RDMAServer.cpp:361-407 | handling one completion is exactly the machine's step, open batch included |
| `SlidingEndpoints.Server.PollCq` | rdma_full_mesh_benchmark/RDMAServer.cpp:337-426 | one event, with any writes arriving between its polls: the steps are the arrivals and one `TakeWrite` per completion, poll by poll until one finds nothing, and a single flush at the end if a batch is open; nothing is left in the queue, and the process does not end |
| `IdBitmap.Encode` | rdma_full_mesh_benchmark/message.hpp:16-40 | fails exactly for ids from 256 on; otherwise adds 2^(id mod 64) to word id / 64, wrapping at 64 bits |
| `IdBitmap.TestBit` | rdma_full_mesh_benchmark/message.hpp:42-91 | tests the binary digit id mod 64 of word id / 64 |
| `IdBitmap.AddedBits` | rdma_full_mesh_benchmark/message.hpp:16-40 | encoding an absent id sets exactly its bit; encoding a present one clears its bit |
| `IdBitmap.EncodeIsSet` | rdma_full_mesh_benchmark/message.hpp:16-40 | distinct ids in any order: exactly their bits are set, so no addition carries |
| `IdBitmap.TwiceIsLost` | rdma_full_mesh_benchmark/message.hpp:16-40 | encoding an id twice loses it |
| `IdBitmap.Decode` | rdma_full_mesh_benchmark/message.hpp:42-91 | writes the set positions of the window in cyclic order to the front of the output and leaves the rest |
| `IdBitmap.DecodedInWindow` | rdma_full_mesh_benchmark/message.hpp:42-91 | what is decoded is always in cyclic order inside the window, without repetition |
| `IdBitmap.RoundTrip` | rdma_full_mesh_benchmark/message.hpp:16-91 | for a window of at most 256 positions, encoding a list and decoding gives the list back if and only if it is in cyclic order inside the window |
| `HexText.HexBack` | new_rdma/src/rdma_session.cpp:114 | the printed digits denote the value |
| `HexText.HexShows` | new_rdma/src/rdma_session.cpp:114 | every character is the one of "0123456789abcdef" for its power of 16, the highest first |
| `HexText.DigitMeaning` | new_rdma/src/rdma_session.cpp:133 | the characters taken for digits are those of both cases, and each is worth its place in them |
| `HexText.HexValueCat` | new_rdma/src/rdma_session.cpp:133 | reading is positional: digits put in front count by powers of 16 |
| `HexText.HexLength` | new_rdma/src/rdma_session.cpp:114 | the text has exactly the minimum width if and only if the value fits it |
| `HexText.ScanPrinted` | new_rdma/src/rdma_session.cpp:133 | scanning undoes printing, up to the first character that is no digit |
| `DestInfo.GidBack` | new_rdma/include/rdma_adapter.h:174-193 | 32 characters, and reading them back gives the gid |
| `DestInfo.WireGidBytes` | new_rdma/include/rdma_adapter.h:187-193 | the text shows the bytes in memory order, two digits each, so the swap on a little-endian host is right |
| `DestInfo.GidToWireGid` | new_rdma/include/rdma_adapter.h:187-193 | the loop fills the array with that text and one terminator |
| `DestInfo.WireGidToGid` | new_rdma/include/rdma_adapter.h:174-186 | the loop stores the gid of the text, or reports a block without digits |
| `DestInfo.PrintParse` | new_rdma/src/rdma_session.cpp:110-134 | printing and parsing is the identity on every 32-bit lid, qpn and psn and every 16-byte gid |
| `DestInfo.FillsMessage` | new_rdma/src/rdma_session.cpp:110-114 | text and terminator are never shorter than the message and fill it exactly if lid, qpn and psn have 16, 24 and 24 bits |
| `DestInfo.PrintLayout` | new_rdma/src/rdma_session.cpp:110-114 | which characters of the message are the digits of lid, qpn, psn and of each byte of the gid, the colons and the terminator |
| `DestInfo.WriteLatDest.WriteDest` | new_rdma/src/rdma_session.cpp:107-119 | the message holds the printed destination and its terminator, in that layout |
| `DestInfo.WriteLatDest.ReadDest` | new_rdma/src/rdma_session.cpp:124-137 | the destination becomes the one parsed from the message, and the result tells whether it parses; lid, qpn and psn of any other message are those scanned before the first field that is missing |
| `DestInfo.FieldsUntilFault` | new_rdma/src/rdma_session.cpp:133 | what texts that stop before, after the first or after the second number leave in the fields |
| `DestInfo.Handshake` | new_rdma/src/rdma_session.cpp:104-213 | what one endpoint writes, the other one reads, into an equal destination |

## Left out

- Verbs and rdma_cm calls, queue pair states, memory registration, sockets and connection management: foreign calls; only posted receives and in-order channels remain.
- Logging, rate and performance counters, sleeps, timers and clocks: no functional content; the clock is a parameter of the synchronization thread.
- Weak memory order and IEEE rounding: interleaving with stale index loads, and exact reals.
- The hello message of the sliding-window path: its immediate no longer matches the parser; the model starts in the steady state.
- Sliced `push_data` and the `data_channel` branch of `broadcast`: the rounds do not use them.
- `run_tests_recv_side`: the same completion loop without the groups; an easy member.
- Benchmark drivers, `register_memory`, `deregister_memory`, argument parsing and `TimeEvent`: easy members without a property that spans operations.
- SpscQueue.SpscRing.Pop: requires a non-empty queue, as the assertion in the source does.
- Spinning and waiting in `emplace`, `blocking_pop` and `pop`: the objects' calls look at the state once and say `Blocked`; the waiting itself, with the other thread's steps, is in the machines.
- SummationService.Service.SubmittedComputeTask: the user keeps to blocks that exist and that no unsynchronized entry uses against the new one; blocks are numbers in place of pointers.
- SummationService.Service.WorkerTurn: calls of the object do not interleave; every interleaving of the steps they consist of is in the pipeline machine.
- ReduceSum.Reduce: one loop with a sum over the blocks stands for the 19 written-out cases; the elements are taken in ascending order here and in any order in the pipeline machine; numbers are exact.
- DoubleBinaryTree.GetConnection: needs two nodes and the node in the list; the code indexes outside the list otherwise.
- SubGroups.CheckClusterSize: needs a width and size with which the check ends; SizeCheckEnds says which these are. Width 0 divides by zero in the source.
- MeshBarrier.RunInv: at most 32 sessions, the size of the bitmap the code allocates; a session that connects while a loop over the group is under way makes its vector grow under the loop, which has no defined meaning in the source.
- SyncThread.Synchronizer.ScanAll: the object holds the queues of the sessions connected in time; later ones are in the machine.
- ServerLoop.DoReduce: polls are given in advance per session; a session whose immediate completion never comes keeps the loop running in the code.
- SlidingEndpoints.Client.OnCompletion: acks of the steady state only, not the messages with memory information or the end of the connection.
- SlidingEndpoints.Server.PollCq: one poll takes all that has arrived, as the code's limit of 256 is twice what can be outstanding; counting received bytes and the first chunk's peer name are not modelled.
- IdBitmap.RoundTrip: windows of more than 256 positions, which visit a position twice, are not covered.
- HexText.ScanPrinted: signs and the `0x` prefix that `%x` also accepts do not occur in printed text and are not modelled.
- DestInfo.WriteLatDest.WriteDest: needs fields that fit; with larger ones the text is longer than the buffer, as FillsMessage states.
- DestInfo.WriteLatDest.ReadDest: the gid after a malformed message is left open; the code reads it from an array it never filled.
