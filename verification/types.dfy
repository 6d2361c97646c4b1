/** Shared vocabulary of the simulator: node inputs, panics, the two-ended
    `Edge` channel broker, bounded(1) channel slots and the interface every
    distributed algorithm implements. */
module Types {

  /** The source's `u32` node identifiers. */
  type NodeId = x: nat | x < 0x1_0000_0000

  datatype Option<+T> = None | Some(value: T)

  /** The reasons for which construction or a run of the simulator panics. */
  datatype Panic =
    | NoEdges             // `expect("no edges given")`
    | NodeCountOverflow   // `1 + max` overflows `u32`
    | NotSimple           // `assert!(..., "graph must be simple")`
    | ThirdEndpoint       // `assert!(..., "attempt to acquire third endpoint for edge")`
    | PostStopTransition  // `assert!(..., "detected post-stop state transition")`

  datatype Result<+T> = Ok(value: T) | Fail(panic: Panic)

  /** Graph data handed to `init`; PN algorithms must not treat `nodeId` as
      a unique identifier. */
  datatype Input = Input(nodeId: nat, nodeCount: nat, nodeDegree: nat)

  /*---------------------------------------------------------------------------
   * Channels and the `Edge` broker
   *-------------------------------------------------------------------------*/

  /** A bounded(1) channel. Every acquisition that mints channels names them
      after the (node, port) it serves, so channels of different acquisitions
      are distinct; `second` tells the two channels of one acquisition apart. */
  datatype ChannelId = ChannelId(node: nat, port: nat, second: bool)

  /** One end of an edge: the channel it sends on and the one it receives on. */
  datatype Endpoint = Endpoint(sender: ChannelId, receiver: ChannelId)

  /** Two endpoints are cross-wired when what one sends the other receives. */
  predicate CrossWired(a: Endpoint, b: Endpoint)
  {
    a.sender == b.receiver && b.sender == a.receiver
  }

  /** The weight of a graph edge: a slot holding the not yet handed out end
      of a channel pair, and whether the second end has been handed out. */
  datatype Edge = Edge(channel: Option<Endpoint>, connected: bool)

  /** `Edge::default()`: nothing stored, not connected. */
  function DefaultEdge(): (e: Edge)
    ensures e.channel.None? && !e.connected
  {
    Edge(None, false)
  }

  /** `Edge::endpoint`, called on behalf of port `port` of node `node`. A
      stored end is handed out (panicking if the edge was already connected);
      otherwise two fresh channels are minted, one end is stored and the
      cross-wired other end is returned. */
  function AcquireEndpoint(e: Edge, node: nat, port: nat): (r: Result<(Edge, Endpoint)>)
    ensures r.Fail? <==> e.channel.Some? && e.connected
    ensures r.Fail? ==> r.panic == ThirdEndpoint
    ensures r.Ok? && e.channel.Some? ==>
      r.value.1 == e.channel.value && r.value.0 == Edge(None, true)
    ensures r.Ok? && e.channel.None? ==>
      && r.value.0.channel.Some?
      && r.value.0.connected == e.connected
      && CrossWired(r.value.1, r.value.0.channel.value)
      && r.value.1.sender != r.value.1.receiver
      && r.value.1.sender.node == node && r.value.1.sender.port == port
      && r.value.1.receiver.node == node && r.value.1.receiver.port == port
  {
    match e.channel
    case Some(stored) =>
      if e.connected then Fail(ThirdEndpoint) else Ok((Edge(None, true), stored))
    case None =>
      var c1 := ChannelId(node, port, false);
      var c2 := ChannelId(node, port, true);
      // (s1, r1) on c1 and (s2, r2) on c2: keep (s1, r2), hand out (s2, r1)
      Ok((Edge(Some(Endpoint(c1, c2)), e.connected), Endpoint(c2, c1)))
  }

  /** The first two acquisitions on a fresh edge hand out two cross-wired
      ends over two distinct channels and leave the edge empty and connected. */
  lemma FirstTwoEndpointsCrossWired(n1: nat, p1: nat, n2: nat, p2: nat)
    ensures
      var r1 := AcquireEndpoint(DefaultEdge(), n1, p1);
      && r1.Ok?
      && var r2 := AcquireEndpoint(r1.value.0, n2, p2);
      && r2.Ok?
      && CrossWired(r1.value.1, r2.value.1)
      && r1.value.1.sender != r2.value.1.sender
      && r2.value.0 == Edge(None, true)
  {
  }

  /** A third acquisition finds the slot empty and mints a fresh pair whose
      other end stays parked in the edge; a fourth one panics. */
  lemma ThirdEndpointUnpairedFourthPanics(ns: seq<nat>, ps: seq<nat>)
    requires |ns| == 4 && |ps| == 4
    ensures
      var r1 := AcquireEndpoint(DefaultEdge(), ns[0], ps[0]);
      && r1.Ok?
      && var r2 := AcquireEndpoint(r1.value.0, ns[1], ps[1]);
      && r2.Ok?
      && var r3 := AcquireEndpoint(r2.value.0, ns[2], ps[2]);
      && r3.Ok?
      && r3.value.0.channel.Some? && r3.value.0.connected
      && CrossWired(r3.value.1, r3.value.0.channel.value)
      && AcquireEndpoint(r3.value.0, ns[3], ps[3]) == Fail(ThirdEndpoint)
  {
  }

  /*---------------------------------------------------------------------------
   * Channel slots
   *-------------------------------------------------------------------------*/

  /** The messages in flight: a channel holds at most one message (bounded(1)),
      so the in-flight messages are a map from channel to its one message. */
  type Slots<M> = map<ChannelId, M>

  /** Sending on channel `c`; `None` when the slot is full and the send would
      block. */
  function Put<M>(slots: Slots<M>, c: ChannelId, m: M): (r: Option<Slots<M>>)
    ensures r.Some? <==> c !in slots
    ensures r.Some? ==> r.value.Keys == slots.Keys + {c} && r.value[c] == m
    ensures r.Some? ==> forall d :: d in slots ==> r.value[d] == slots[d]
  {
    if c in slots then None else Some(slots[c := m])
  }

  /** Receiving on channel `c`; `None` when the slot is empty and the receive
      would block. */
  function Take<M>(slots: Slots<M>, c: ChannelId): (r: Option<(M, Slots<M>)>)
    ensures r.Some? <==> c in slots
    ensures r.Some? ==> r.value.0 == slots[c] && r.value.1.Keys == slots.Keys - {c}
  {
    if c in slots then Some((slots[c], slots - {c})) else None
  }

  /** A message put on an empty channel is the one taken from it, and taking
      it restores the slots as they were. */
  lemma PutThenTake<M>(slots: Slots<M>, c: ChannelId, m: M)
    requires c !in slots
    ensures Put(slots, c, m).Some?
    ensures Take(Put(slots, c, m).value, c) == Some((m, slots))
  {
    assert slots[c := m] - {c} == slots;
  }

  /** A second send on a channel nobody has received from blocks. */
  lemma SecondPutBlocks<M>(slots: Slots<M>, c: ChannelId, m1: M, m2: M)
    requires c !in slots
    ensures Put(slots, c, m1).Some? && Put(Put(slots, c, m1).value, c, m2).None?
  {
  }

  /*---------------------------------------------------------------------------
   * The distributed-algorithm interface
   *-------------------------------------------------------------------------*/

  /** `DistributedAlgorithm` together with its `State`: `send(s, p)` is the
      message at position `p` of the (unbounded) stream `send` produces, one
      position per port; `receive` takes one message per port, in port order;
      `same` is the state's `PartialEq`. */
  datatype Algorithm<!S, !M> = Algorithm(
    init: Input -> S,
    send: (S, nat) -> M,
    receive: (S, seq<M>) -> S,
    isOutput: S -> bool,
    same: (S, S) -> bool)

  /** The messages a node sends: the stream cut to its port count, as `zip`
      with the list of senders does. */
  function Outbox<S, M>(alg: Algorithm<S, M>, s: S, ports: nat): (out: seq<M>)
    ensures |out| == ports
    ensures forall p :: 0 <= p < ports ==> out[p] == alg.send(s, p)
  {
    seq(ports, (p: nat) => alg.send(s, p))
  }

  /** A stopped node never trips the post-stop check: a state equal to a
      stopping state (including that state itself) stays equal to it after
      any receive. */
  ghost predicate PostStopSafe<S(!new), M(!new)>(alg: Algorithm<S, M>)
  {
    && (forall t :: alg.isOutput(t) ==> alg.same(t, t))
    && (forall s, t, msgs :: alg.isOutput(t) && alg.same(s, t) ==> alg.same(alg.receive(s, msgs), t))
  }

  /** Being an output is invariant under the state's equality. */
  ghost predicate OutputRespectsSame<S(!new), M>(alg: Algorithm<S, M>)
  {
    forall s, t :: alg.isOutput(t) && alg.same(s, t) ==> alg.isOutput(s)
  }
}
