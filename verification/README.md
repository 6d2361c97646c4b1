# da-simulator in Dafny

This project models the core of `da-simulator`, a simulator for distributed
algorithms in the port-numbering (PN) model, together with the three
algorithms it ships. Each algorithm is given as `init`, `send` and `receive`
functions. The simulator builds an undirected network from an edge list. It
numbers each node's ports in the reverse of the order in which its graph
library lists the node's edges. It then runs every node in synchronous rounds: the node sends
one message per port, receives one message per port and computes its next
state. A run ends when every node has reached a stopping (output) state, when
the optional round limit is reached, or when the deadline passes.

The model has seven modules, one file each:

- `Types` (`types.dfy`) covers the `Edge` endpoint broker, bounded(1) channel
  slots, node `Input` and the algorithm interface. An algorithm is a datatype
  of five functions: `init`, `send` (message number `p` of the stream),
  `receive`, `is_output` and the state's equality.
- `Graph` (`graph.dfy`) covers the node count, the degrees, the stored edges
  (source ≤ target) and the adjacency iteration order of the graph library.
  It also covers the port numbering derived from that order and the "graph
  must be simple" check.
- `Wiring` (`wiring.dfy`) covers how a run acquires one endpoint per port,
  node by node, and how one round's messages move through the capacity-one
  channels.
- `Simulator` (`simulator.dfy`) covers `from_network`, one synchronous round
  with the post-stop check and the stop counter, the node loop with its round
  limit and deadline, and the verdict `run` prints.
- `Bipartite`, `Mvc` and `Isomorphic` cover the bipartite maximal matching,
  the minimum vertex cover 3-approximation built from two copies of it, and
  isomorphic neighbourhood gathering up to depth D.

The node threads are modelled in lock step: every node sends, then every node
receives, then every node does its stop bookkeeping. The wall-clock deadline
becomes a budget of rounds. A round in which some receiver has no sender (a
self-loop gives a node such a port) blocks until the deadline, and the run
ends as timed out.

Two facts about the program shape the model:

- A node whose `init` state is already an output still runs one full round.
  The stop counter is only updated after a receive, so every run that does
  not time out reports at least one round (`Simulator.RunRespectsLimit`).
- `src/algorithms/mvc_3approx.rs` and `src/algorithms/isomorphic.rs` are
  written against `InitInfo` and `PnAlgorithm`, which `src/types.rs` calls
  `Input` and `DistributedAlgorithm`. The model uses the interface as
  `src/types.rs` defines it.

## Model

| member | source | states |
|---|---|---|
| Types.DefaultEdge | src/types.rs:37-45 | A default edge holds no channel pair and is not connected. |
| Types.AcquireEndpoint | src/types.rs:24-34 | Acquiring panics exactly when a stored pair is found on an already connected edge. A stored pair is handed out, which empties the slot and marks the edge connected. An empty slot gets a new pair of channels: one cross-wired end is kept and the other returned, tagged with the acquiring port. |
| Types.FirstTwoEndpointsCrossWired | src/types.rs:24-34 | The first two acquisitions of an edge succeed and return two ends that are cross-wired: what one sends, the other receives. The edge is left empty and connected. |
| Types.ThirdEndpointUnpairedFourthPanics | src/types.rs:24-34 | A third acquisition does not panic. It finds the slot empty and mints a new, unpaired pair. Only a fourth acquisition panics. |
| Types.PutThenTake | src/types.rs:30-31 | A message put into an empty capacity-one channel is the message taken out, and the channel is empty again. |
| Types.SecondPutBlocks | src/types.rs:30-31 | A capacity-one channel refuses a second message until the first is taken. |
| Types.Outbox | src/types.rs:75-78 | A node with n ports sends the first n messages of its `send` stream, message p on port p. |
| Graph.MaxEndpoint | src/simulator.rs:36-40 | The largest end id bounds every edge's ends and is the end of some edge. |
| Graph.Degree | src/simulator.rs:43-44 | The degree counted in advance: each end of each given edge adds one to its node, so a self-loop counts twice (its partner is `Graph.PortCountIsDegree`). |
| Graph.Normalize | src/simulator.rs:62-68 | A stored edge has source ≤ target and joins the same two nodes as the given edge. |
| Graph.StoredEdgesNormalised | src/simulator.rs:62-72 | Every stored edge has source ≤ target and joins the same two nodes as the given edge. The swap neither creates nor removes self-loops. |
| Graph.Outgoing | src/simulator.rs:97 | The first part of the adjacency iteration: exactly the edges whose source is the node, newest first. |
| Graph.Incoming | src/simulator.rs:97 | The second part of the adjacency iteration: exactly the edges that end at the node from another node, newest first. |
| Graph.PushFrontAllReverses | src/simulator.rs:96-98 | Pushing each iterated edge to the front of a deque yields the iteration order reversed. |
| Graph.Ports | src/simulator.rs:94-99 | A node's port list is the reverse of its adjacency iteration order. It lists exactly the edges at the node, each once. |
| Graph.PortCountIsDegree | src/simulator.rs:43-44 | Without self-loops, a node's port count equals the degree counted at construction. |
| Graph.AllInsertIffDistinct | src/simulator.rs:76-81 | The `uniq.insert` scan passes exactly when the targets are pairwise distinct and none was seen before. |
| Graph.SimpleIffNoParallelEdges | src/simulator.rs:75-84 | The per-node simplicity check passes at every node exactly when no two stored edges join the same pair of nodes. |
| Graph.NotSimpleAtHasParallelEdges | src/simulator.rs:75-84 | A node that fails the check has two parallel edges. |
| Wiring.PortsFormPortTable | src/simulator.rs:94-99 | The port lists of all nodes form a port table: each node lists each of its edges exactly once, and every entry names a stored edge. |
| Wiring.PortAtIsUnique | src/simulator.rs:94-99 | An edge at a node sits at exactly one port of that node. |
| Wiring.AcquirePorts | src/simulator.rs:108-110 | Acquiring a node's ports yields one endpoint per port, keeps the number of edges, and can only panic with the third-endpoint assertion. |
| Wiring.AcquireNodes | src/simulator.rs:108-110 | Acquiring every node's ports yields one endpoint list per node, each as long as that node's port list, and can only panic with the third-endpoint assertion. |
| Wiring.FreshAcquisition | src/simulator.rs:108-110 | Without self-loops, on the default edges of a new network, acquisition succeeds. Every edge ends empty and connected, and every port gets the endpoint expected for its edge end. |
| Wiring.FreshCrossWired | src/types.rs:30-33 | Without self-loops, after a fresh acquisition, each port's end is cross-wired with its peer's end on the other node of the same edge. The peer's sender is the only sender that feeds the port's receiver. |
| Wiring.FreshSendersDistinct | src/types.rs:30-33 | Without self-loops, after a fresh acquisition, no two ports hold the same sender. |
| Wiring.SecondAcquisitionPanics | src/simulator.rs:108-110 | Acquiring again panics with the third-endpoint assertion as soon as some edge that is not a self-loop is empty and connected, as a run leaves it. |
| Wiring.FirstAcquisitionConnects | src/simulator.rs:108-110 | A first acquisition on default edges, with or without self-loops, leaves every edge that is not a self-loop empty and connected. |
| Wiring.Inbox | src/simulator.rs:156-159 | A node's receive succeeds exactly when every one of its receivers holds a message. It yields those messages in port order. |
| Wiring.AllPosted | src/simulator.rs:137-141 | With distinct senders, every node's sends succeed and each sender's channel holds what its port sent. |
| Wiring.Exchange | src/simulator.rs:137-162 | When a round's exchange completes, every node gets exactly one message per port (its partner is `Wiring.ExchangeDelivers`). |
| Wiring.ExchangeDelivers | src/simulator.rs:137-162 | A round's message exchange completes exactly when every receiver is fed by some sender. Each port then receives what the feeding port sent. |
| Wiring.ExchangeStallsUnlessFed | src/simulator.rs:156-171 | An exchange that completes had a sender for every receiver. |
| Wiring.FreshExchange | src/simulator.rs:137-162 | Without self-loops, on freshly acquired channels, the exchange completes and each port receives what its peer sent on the shared edge. |
| Simulator.NodeCount | src/simulator.rs:36-40 | The node count is one more than the largest end id. No edges panics. An end id of 2^32 - 1 overflows and panics. |
| Simulator.Build | src/simulator.rs:42-72 | The network has node-count nodes, the stored edges normalised and default edge weights. Node v starts in `init(Input(v, node_count, degree of v))`. |
| Simulator.Simple | src/simulator.rs:75-84 | Construction's simplicity check passes exactly when no two given edges join the same unordered pair of nodes. |
| Simulator.FromNetwork | src/simulator.rs:34-91 | Construction fails with no edges, with node-count overflow, or with a non-simple graph, and in no other case. On success it is the network described above. |
| Simulator.InitSeesPortCount | src/simulator.rs:50-59 | Without self-loops, every node's `init` sees its real port count as its degree. |
| Simulator.Outboxes | src/simulator.rs:137-141 | Each node sends, on each of its ports, the matching element of its `send` stream for its current state. |
| Simulator.Settle | src/simulator.rs:173-182 | A node takes the state `receive` gives. A stopped node that leaves its stopping state panics, and one that stays keeps it. A running node stops exactly when its new state is an output, and records that state. |
| Simulator.SettleAll | src/simulator.rs:173-182 | A round panics exactly when some node's post-stop check fails. Otherwise the count of nodes that newly stopped this round makes up the increase of the stop counter. |
| Simulator.StoppedIsAll | src/simulator.rs:184-187 | The stop counter reaches the node count exactly when every node has recorded a stopping state. |
| Simulator.CounterAddsUp | src/simulator.rs:176-181 | Nodes that stay stopped keep their count: the stop count after a round is the count before plus the nodes that newly stopped, each counted once. |
| Simulator.FreshRoundIsSynchronous | src/simulator.rs:137-162 | Without self-loops, on freshly acquired channels a round never blocks. Every node's new state is `receive` applied to what its neighbours sent it, in port order. |
| Simulator.Round | src/simulator.rs:135-182 | A round that completes keeps the node count, and the nodes it reports as newly stopped make up the whole increase in stopped nodes. |
| Simulator.Loop | src/simulator.rs:135-194 | The node loop only panics with a post-stop transition. It never runs more rounds than the deadline allows. |
| Simulator.LoopRespectsLimit | src/simulator.rs:189-193 | With a positive round limit, the loop runs at most that many rounds. It reports the limit only after exactly that many. Any exit other than a timeout comes after at least one round. |
| Simulator.LoopCountsStops | src/simulator.rs:184-187 | The loop ends with every node stopped exactly when the stop count has reached the node count. |
| Simulator.SafeLoopNeverPanics | src/simulator.rs:173-175 | When the rounds keep an invariant under which they never panic, the loop never panics. |
| Simulator.LoopTimesOutAtDeadline | src/simulator.rs:127 | When no round can block, a timeout happens only once the whole deadline budget has been used. |
| Simulator.RoundCountsStops | src/simulator.rs:176-187 | Every round reports, as newly stopped, exactly the increase in stopped nodes. |
| Simulator.SettleKeepsConsistent | src/simulator.rs:173-182 | A stopped node's recorded stopping state stays an output equal to its state. |
| Simulator.SafeRoundNeverPanics | src/simulator.rs:173-175 | When outputs are absorbing up to the state's equality, no round on consistent trackers panics. |
| Simulator.Unfinished | src/simulator.rs:203 | The number of unfinished nodes is zero exactly when every final state is an output. |
| Simulator.Run | src/simulator.rs:103-213 | A run only panics on acquisition or on a post-stop transition. It keeps the node count and the stored edges. It reports success exactly when every final state is an output, and uses at most the deadline's rounds. |
| Simulator.RunRespectsLimit | src/simulator.rs:101-102 | A positive round limit bounds the rounds of a run. A run that ends without a timeout has run at least one round. |
| Simulator.AllStoppedRunSucceeds | src/simulator.rs:173-212 | A run that ends because every node stopped is reported successful, when being an output respects the state's equality. |
| Simulator.SafeRunOnlyPanicsOnAcquiring | src/simulator.rs:173-175 | For an algorithm whose outputs are absorbing, the only panic left in a run is the third-endpoint assertion. |
| Simulator.SafeFreshRunSucceeds | src/simulator.rs:103-201 | The first run on a new network without self-loops does not panic, for an algorithm whose outputs are absorbing. |
| Simulator.FreshRun | src/simulator.rs:103-213 | After the first run every edge is empty and connected. A run that times out has used its whole deadline. |
| Simulator.SecondRunPanics | src/simulator.rs:103-110 | Running the same simulator a second time panics with the third-endpoint assertion whenever some given edge is not a self-loop. |
| Bipartite.ColorOf | src/algorithms/bipartite.rs:27-35 | Even node ids are White and odd ids Black (its partner is `Mvc.Init`, which relies on ids 0 and 1 giving the two colours). |
| Bipartite.Init | src/algorithms/bipartite.rs:123-141 | A node starts in round 0, unmatched and running, with no proposals. Even ids are White with an empty `x_set`. Odd ids are Black and wait on every port 0 .. degree-1. |
| Bipartite.Send | src/algorithms/bipartite.rs:143-161 | `Proposal` goes out only in a proposing round 2k and only on port k. `Accept` goes out only in an accepting round and only on the smallest proposing port. |
| Bipartite.SetMin | src/algorithms/bipartite.rs:157 | The chosen port is in the set and no larger than any other port in it. |
| Bipartite.FirstAccept | src/algorithms/bipartite.rs:172-177 | The accept index is the first port carrying `Accept`, and there is none exactly when no port carries one. |
| Bipartite.Tally | src/algorithms/bipartite.rs:200-212 | The port-by-port bookkeeping removes exactly the `Matched` ports from `x_set` and adds exactly the `Proposal` ports to `m_set`. |
| Bipartite.Receive | src/algorithms/bipartite.rs:164-167 | Receiving advances the round by one and keeps the degree and the colour. |
| Bipartite.SendKinds | src/algorithms/bipartite.rs:143-161 | A node sends `Proposal` only on port k in its proposing round 2k. It sends `Accept` only on the smallest proposing port, in its accepting round. It sends `Matched` on every port exactly when it is a White node matched-running on an even round. A stopped node sends only `Noop`. |
| Bipartite.WhiteProposesInTurn | src/algorithms/bipartite.rs:148-152 | A White node still unmatched after 2k rounds, with k below its degree, proposes on port k and on no other port. |
| Bipartite.WhiteTakesFirstAccept | src/algorithms/bipartite.rs:172-192 | On an odd round an unmatched White node becomes matched over port i exactly when i is the first port carrying `Accept`. It stays unmatched exactly when no port carries one. |
| Bipartite.WhiteStops | src/algorithms/bipartite.rs:184-189 | On an even round, a White node matched over port i stops matched over i. An unmatched one stops unmatched exactly when its proposing rounds are over. |
| Bipartite.AcceptIsMatchedPort | src/algorithms/bipartite.rs:156-196 | An unmatched Black node on an odd round accepts on port p exactly when it stops matched over p. |
| Bipartite.BlackStopsUnmatched | src/algorithms/bipartite.rs:194-199 | An unmatched Black node with no proposal stops unmatched on an odd round exactly when `x_set` is empty. Otherwise it stays unmatched and running. |
| Bipartite.BlackTallies | src/algorithms/bipartite.rs:200-212 | On an even round an unmatched Black node stays unmatched. A port leaves `x_set` exactly when it carried `Matched`, and joins `m_set` exactly when it carried `Proposal`. |
| Bipartite.PortSetsMoveOneWay | src/algorithms/bipartite.rs:164-217 | No receive adds to `x_set` or removes from `m_set`. |
| Bipartite.StoppedIsAbsorbing | src/algorithms/bipartite.rs:182-214 | A stopped node keeps its matching state and both port sets, whatever it receives. |
| Bipartite.WhiteStopsInTime | src/algorithms/bipartite.rs:182-192 | A reachable White node has stopped once it has received as many inboxes as its bound, whatever they held. |
| Bipartite.WhiteStopsWithinDegree | src/algorithms/bipartite.rs:148-192 | A White node stops within 2·degree + 1 rounds, whatever its neighbours send. |
| Bipartite.BipartiteIsPostStopSafe | src/algorithms/bipartite.rs:82-102 | Once a node is an output, every later receive leaves it equal to its stopping state. A state equal to an output is an output. |
| Bipartite.BipartiteRunsSafely | src/algorithms/bipartite.rs:182-214 | On a network without self-loops, a run of the algorithm never panics. A run in which every node stopped is reported successful. |
| Mvc.Init | src/algorithms/mvc_3approx.rs:43-54 | Whatever the node id, the first copy is White and the second Black, and both have the node's degree. |
| Mvc.Send | src/algorithms/mvc_3approx.rs:56-59 | The message for a neighbour's White copy comes from a Black copy, so it is only ever `Accept` or `Noop`. The message for its Black copy comes from a White copy and is never `Accept`. |
| Mvc.Receive | src/algorithms/mvc_3approx.rs:61-68 | Both copies advance one round together and keep their colours and degrees. |
| Mvc.InitRoles | src/algorithms/mvc_3approx.rs:43-54 | Whatever the node id, the first copy starts White and the second copy Black. Both copies have the node's degree, start in round 0 and are unmatched. The Black copy waits on every port. |
| Mvc.CrossWiring | src/algorithms/mvc_3approx.rs:56-68 | When each port carries what a neighbour sent, the node's White copy receives what the neighbours' Black copies sent, and its Black copy receives what their White copies sent, in port order. |
| Mvc.SameCover | src/algorithms/mvc_3approx.rs:9-25 | Equal states print the same cover bit. A stopped node is in the cover exactly when one of its copies stopped matched. |
| Mvc.WhiteCopyReceives | src/algorithms/mvc_3approx.rs:61-68 | Over any sequence of rounds, the White copy evolves as the bipartite algorithm on the first halves of the messages. |
| Mvc.WhiteCopyStops | src/algorithms/mvc_3approx.rs:43-68 | A node's White copy stops within 2·degree + 1 rounds, whatever its neighbours send. |
| Mvc.MvcIsPostStopSafe | src/algorithms/mvc_3approx.rs:9-19 | Once both copies have stopped, every later receive leaves the state equal to its stopping state. A state equal to an output is an output. |
| Mvc.MvcRunsSafely | src/algorithms/mvc_3approx.rs:15-19 | On a network without self-loops, a run never panics. A run in which every node stopped is reported successful. |
| Isomorphic.Init | src/algorithms/isomorphic.rs:44-46 | A node starts with no rounds done and its degree as its value. |
| Isomorphic.IsOutput | src/algorithms/isomorphic.rs:14-18 | A node is an output exactly when its counter equals the depth (its partner is `Isomorphic.StopsAfterDepth`). |
| Isomorphic.Send | src/algorithms/isomorphic.rs:48-52 | Every port carries the node's current value, whatever the port. |
| Isomorphic.Receive | src/algorithms/isomorphic.rs:54-66 | The state is unchanged exactly when the counter is at the depth. A counter at or below the depth never passes it. Below the depth, the counter advances by one and the value becomes the sum of the numbers received. |
| Isomorphic.CounterAdvances | src/algorithms/isomorphic.rs:54-66 | Below the depth, each receive adds one to the counter until it reaches D. After that the counter stays at D. |
| Isomorphic.StopsAfterDepth | src/algorithms/isomorphic.rs:44-63 | From `init` the counter never exceeds D. A node is an output exactly when it has received at least D inboxes. |
| Isomorphic.DepthIsAbsorbing | src/algorithms/isomorphic.rs:57-58 | At the depth, any number of receives leave the state unchanged. |
| Isomorphic.ReceiveSumsNeighbours | src/algorithms/isomorphic.rs:48-63 | Below the depth, the new value is the sum of the values the neighbours hold, whatever ports they sent them on, and the counter advances by one. |
| Isomorphic.SumIgnoresOrder | src/algorithms/isomorphic.rs:59-63 | The sum of the received numbers depends only on the multiset of messages, not on their port order. |
| Isomorphic.ReceiveIgnoresPortOrder | src/algorithms/isomorphic.rs:54-66 | Receiving a permutation of the same messages gives the same state. |
| Isomorphic.IsomorphicIsPostStopSafe | src/algorithms/isomorphic.rs:8-19 | A node at the depth stays equal to itself, and a state equal to an output is an output. |
| Isomorphic.IsomorphicRunsSafely | src/algorithms/isomorphic.rs:54-66 | On a network without self-loops, a run never panics. A run in which every node stopped is reported successful. |

## Left out

- Threads, crossbeam's `send_deadline`/`recv_deadline` and the `Relaxed`
  atomic stop counter are not modelled as concurrency. Rounds run in lock
  step, so every node reads the counter after all nodes of its round have
  updated it, and all nodes leave the loop in the same round. In the source
  the nodes are not in step: a node may read the counter before slower
  nodes have added to it, so nodes can leave the loop in different rounds.
- The wall-clock deadline is not modelled as time. It becomes a budget of
  rounds, and a blocked receive ends the run as timed out.
- When a round blocks, the model keeps the states from before that round. In
  the source, nodes that were not blocked may already have moved on. Closing
  the channels at loop exit, and the early exits it causes in neighbours, are
  folded into this.
- The `print` DOT serialisation, all `println!`/`eprintln!` output, `name()`,
  the `Debug` formatting and `src/main.rs` are I/O and entry-point code. The
  `Debug` formatting is kept only as `Mvc.Cover`, the printed cover bit.
- The graph library's internals are not modelled. Only its adjacency
  iteration order is stated, as `Graph.Outgoing` followed by
  `Graph.Incoming`: edges whose source is the node, newest first, then
  non-loop edges ending at it, newest first.
- `src/bipartite.rs` is a stale stub outside the module tree.
  `src/algorithms.rs` only re-exports.
- The round counters and sums are `u32` in the source: `round` in the
  bipartite state, the value in `Isomorphic.Receive`, `iterations`, and the
  stop counter. The model uses unbounded naturals. A wrap-around or an
  overflow panic needs about 2^32 rounds, or neighbourhood sums above 2^32
  at large D, and which of the two happens depends on the build profile.
  The one way to reach 2^32 rounds without waiting on anyone is the isolated
  node described below.
  Node ids and the node count are bounded, and their overflow is modelled.
- The `usize` to `u32` casts of port indices are not modelled: a port index
  needs 2^32 ports to wrap.
- `Simulator.Loop` assumes that every node sends as many messages as it has
  ports. `send` is an unbounded stream in the model. All three algorithms
  send unbounded streams, so `zip` never cuts a round short.
- A node of degree 0 exists only when a larger id appears in some edge. It
  has no channels, so nothing in its loop ever checks the deadline. In the
  source it keeps looping on its own, while in the model it moves in lock
  step with the others. When the round limit is 0 and the stop counter never
  reaches the node count (for example on `[(0,0),(0,2)]`, where node 0's
  self-loop times out and node 1 is isolated), the source's `run` never
  returns, or panics when `iterations` overflows in a debug build. The model
  instead ends such a run at the deadline and reports it as timed out.
- Simulator.FreshRun: proved only for edge lists without self-loops. A
  self-loop is acquired once at its node, which leaves that node with a
  receiver nobody sends on. The model blocks any round in which a receiver
  has no sender (`Wiring.ExchangeStallsUnlessFed`), but the whole-run
  results for networks with loops are not stated.
- Simulator.SafeFreshRunSucceeds: proved only for edge lists without
  self-loops, for the same reason.
- `PartialEq for Edge` (src/types.rs:47-51) answers true for any two edges.
  Nothing in the core compares edges, so it is not modelled.
