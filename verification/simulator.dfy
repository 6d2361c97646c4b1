/** `DaSimulator`: building the network from a list of edges, and running an
    algorithm on it in synchronous rounds until every node has stopped, the
    round limit is reached or the deadline passes.

    The node threads of a run are modelled in lock step: in every round all
    nodes send, then all nodes receive, then every node does its stop
    bookkeeping, and only then is the stop counter read. The deadline is a
    budget of rounds: a run that has used it up, or whose round blocks on a
    channel nobody sends on, ends as timed out. */
module Simulator {
  import opened Types
  import opened Graph
  import opened Wiring

  /** The largest `u32`; a node with this id makes `1 + max` overflow. */
  const MaxNodeId: nat := 0xFFFF_FFFF

  /** A simulator: the node weights (states), the stored edges in insertion
      order (source <= target) and the edge weights. */
  datatype Sim<S> = Sim(states: seq<S>, links: seq<Link>, edges: seq<Edge>)

  /** What every simulator built by `FromNetwork` satisfies. */
  predicate Valid<S>(sim: Sim<S>)
  {
    && |sim.edges| == |sim.links|
    && Normalized(sim.links)
    && forall k :: 0 <= k < |sim.links| ==> sim.links[k].1 < |sim.states|
  }

  /** The port table of the simulator's nodes (`edges(node)` for each node). */
  function PortTableOf<S>(sim: Sim<S>): (pt: seq<seq<nat>>)
    ensures |pt| == |sim.states|
    ensures InRange(pt, |sim.links|)
  {
    PortsFormPortTable(sim.links, |sim.states|);
    seq(|sim.states|, (v: nat) => Ports(sim.links, v))
  }

  /** No two given edges join the same two nodes. */
  predicate NoDuplicateEdges(es: seq<Link>)
  {
    forall k1, k2 :: 0 <= k1 < k2 < |es| ==> Normalize(es[k1]) != Normalize(es[k2])
  }

  /** Some given edge has an end with the largest `u32` id. */
  predicate MentionsMaxNodeId(es: seq<Link>)
  {
    exists k :: 0 <= k < |es| && (es[k].0 == MaxNodeId || es[k].1 == MaxNodeId)
  }

  /** `1 + max` over all ends: the node count, or a panic when there are no
      edges or the count overflows `u32`. */
  function NodeCount(es: seq<(NodeId, NodeId)>): (r: Result<nat>)
    ensures |es| == 0 <==> r == Fail(NoEdges)
    ensures |es| > 0 ==> (MentionsMaxNodeId(es) <==> r == Fail(NodeCountOverflow))
    ensures r.Ok? ==>
      && 0 < r.value <= MaxNodeId
      && (forall k :: 0 <= k < |es| ==> es[k].0 < r.value && es[k].1 < r.value)
      && (exists k :: 0 <= k < |es| && (es[k].0 == r.value - 1 || es[k].1 == r.value - 1))
  {
    if |es| == 0 then Fail(NoEdges)
    else
      var max := MaxEndpoint(es);
      if max == MaxNodeId then Fail(NodeCountOverflow) else Ok(1 + max)
  }

  /** The simulator for `n` nodes over the given edges, before the
      simplicity check. */
  function Build<S, M>(alg: Algorithm<S, M>, es: seq<(NodeId, NodeId)>, n: nat): (sim: Sim<S>)
    requires forall k :: 0 <= k < |es| ==> es[k].0 < n && es[k].1 < n
    ensures Valid(sim) && |sim.states| == n && |sim.links| == |es|
    ensures forall k :: 0 <= k < |es| ==> SameEnds(sim.links[k], es[k])
    ensures forall v :: 0 <= v < n ==> sim.states[v] == alg.init(Input(v, n, Degree(es, v)))
    ensures forall k :: 0 <= k < |sim.edges| ==> sim.edges[k] == DefaultEdge()
  {
    var links := NormalizeAll(es);
    assert Normalized(links);
    Sim(seq(n, (v: nat) => alg.init(Input(v, n, Degree(es, v)))), links, DefaultEdges(|es|))
  }

  /** The check that the graph is simple, run on the stored edges: it passes
      exactly when no two given edges join the same two nodes. */
  function Simple(es: seq<(NodeId, NodeId)>, n: nat): (r: bool)
    requires forall k :: 0 <= k < |es| ==> es[k].0 < n && es[k].1 < n
    ensures r <==> NoDuplicateEdges(es)
  {
    var links := NormalizeAll(es);
    assert Normalized(links);
    assert forall k :: 0 <= k < |links| ==> links[k].1 < n;
    SimpleIffNoParallelEdges(links, n);
    IsSimple(links, n)
  }

  /** `DaSimulator::from_network`: the node count is one more than the largest
      id, each node starts in the state `init` gives it, and the edges are
      stored with source <= target. An empty edge list, an overflowing node
      count and a non-simple graph panic. */
  function FromNetwork<S, M>(alg: Algorithm<S, M>, es: seq<(NodeId, NodeId)>): (r: Result<Sim<S>>)
    ensures |es| == 0 ==> r == Fail(NoEdges)
    ensures |es| > 0 && MentionsMaxNodeId(es) ==> r == Fail(NodeCountOverflow)
    ensures r.Fail? ==> r.panic == NoEdges || r.panic == NodeCountOverflow || r.panic == NotSimple
    ensures r.Ok? <==> |es| > 0 && !MentionsMaxNodeId(es) && NoDuplicateEdges(es)
    ensures r.Ok? ==> NodeCount(es) == Ok(|r.value.states|) && r.value == Build(alg, es, |r.value.states|)
  {
    match NodeCount(es)
    case Fail(p) => Fail(p)
    case Ok(n) =>
      if !Simple(es, n) then Fail(NotSimple) else Ok(Build(alg, es, n))
  }

  /*---------------------------------------------------------------------------
   * Per-node bookkeeping
   *-------------------------------------------------------------------------*/

  /** A node's state and the state it stopped in, if it has stopped. */
  datatype Tracker<S> = Tracker(state: S, stopping: Option<S>)

  /** A node's receive followed by its stop bookkeeping; `None` when a
      stopped node's new state differs from its stopping state. */
  function Settle<S, M>(alg: Algorithm<S, M>, t: Tracker<S>, msgs: seq<M>): (r: Option<Tracker<S>>)
    ensures r.Some? ==> r.value.state == alg.receive(t.state, msgs)
    ensures t.stopping.Some? ==> (r.Some? <==> alg.same(alg.receive(t.state, msgs), t.stopping.value))
    ensures t.stopping.Some? && r.Some? ==> r.value.stopping == t.stopping
    ensures t.stopping.None? ==> r.Some? && (r.value.stopping.Some? <==> alg.isOutput(r.value.state))
    ensures t.stopping.None? && r.value.stopping.Some? ==> r.value.stopping.value == r.value.state
  {
    var s := alg.receive(t.state, msgs);
    match t.stopping
    case Some(stop) => if alg.same(s, stop) then Some(Tracker(s, t.stopping)) else None
    case None => Some(Tracker(s, if alg.isOutput(s) then Some(s) else None))
  }

  /** The number of nodes that have stopped. */
  function Stopped<S>(ts: seq<Tracker<S>>): (c: nat)
    ensures c <= |ts|
  {
    if |ts| == 0 then 0
    else (if ts[0].stopping.Some? then 1 else 0) + Stopped(ts[1..])
  }

  /** The count reaches the node count exactly when every node has stopped. */
  lemma {:induction false} StoppedIsAll<S>(ts: seq<Tracker<S>>)
    ensures Stopped(ts) == |ts| <==> forall v :: 0 <= v < |ts| ==> ts[v].stopping.Some?
  {
    if |ts| > 0 {
      StoppedIsAll(ts[1..]);
      assert forall v :: 1 <= v < |ts| ==> ts[v] == ts[1..][v - 1];
    }
  }

  /** The number of nodes that stop in the step from `ts` to `ts'`. */
  function NewlyStopped<S>(ts: seq<Tracker<S>>, ts': seq<Tracker<S>>): (c: nat)
    requires |ts| == |ts'|
    ensures c <= |ts|
  {
    if |ts| == 0 then 0
    else (if ts[0].stopping.None? && ts'[0].stopping.Some? then 1 else 0) + NewlyStopped(ts[1..], ts'[1..])
  }

  /*---------------------------------------------------------------------------
   * Rounds
   *-------------------------------------------------------------------------*/

  /** The outcome of one round. */
  datatype Step<S> =
    | Stalled                                        // a receive waits for the deadline
    | Panicked                                       // a post-stop transition
    | Stepped(trackers: seq<Tracker<S>>, newly: nat) // the next trackers, and how many nodes stopped

  /** What each node sends this round: its stream cut to its port count. */
  function Outboxes<S, M>(alg: Algorithm<S, M>, chans: seq<seq<Endpoint>>, ts: seq<Tracker<S>>): (outs: seq<seq<M>>)
    requires |ts| == |chans|
    ensures Shaped(chans, outs)
    ensures forall v, p :: 0 <= v < |ts| && 0 <= p < |chans[v]| ==> outs[v][p] == alg.send(ts[v].state, p)
  {
    seq(|ts|, v requires 0 <= v < |ts| => Outbox(alg, ts[v].state, |chans[v]|))
  }

  /** Every node's receive and stop bookkeeping on the messages it took. */
  function SettleAll<S, M>(alg: Algorithm<S, M>, ts: seq<Tracker<S>>, inbox: seq<seq<M>>): (r: Step<S>)
    requires |inbox| == |ts|
    ensures !r.Stalled?
    ensures r.Panicked? <==> exists v :: 0 <= v < |ts| && Settle(alg, ts[v], inbox[v]).None?
    ensures r.Stepped? ==> |r.trackers| == |ts| && r.newly == NewlyStopped(ts, r.trackers)
    ensures r.Stepped? ==> forall v :: 0 <= v < |ts| ==> Settle(alg, ts[v], inbox[v]) == Some(r.trackers[v])
    ensures r.Stepped? ==> Stopped(ts) + r.newly == Stopped(r.trackers)
  {
    if exists v :: 0 <= v < |ts| && Settle(alg, ts[v], inbox[v]).None? then Panicked
    else
      var ts' := seq(|ts|, v requires 0 <= v < |ts| => Settle(alg, ts[v], inbox[v]).value);
      CounterAddsUp(ts, ts');
      Stepped(ts', NewlyStopped(ts, ts'))
  }

  /** One synchronous round: every node sends on all its ports, receives on
      all its ports and updates its state, then checks it against its
      stopping state or records that it stopped. */
  function Round<S, M>(alg: Algorithm<S, M>, chans: seq<seq<Endpoint>>, ts: seq<Tracker<S>>): (r: Step<S>)
    requires |ts| == |chans|
    ensures r.Stepped? ==> |r.trackers| == |ts| && Stopped(ts) + r.newly == Stopped(r.trackers)
  {
    match Exchange(chans, Outboxes(alg, chans, ts))
    case None => Stalled
    case Some(inbox) => SettleAll(alg, ts, inbox)
  }

  /** The rounds of a run over the given channel lists, as a function of the
      trackers; the node count never changes during a run, so trackers of
      another length never reach it. */
  function RoundOf<S(!new), M>(alg: Algorithm<S, M>, chans: seq<seq<Endpoint>>): (next: seq<Tracker<S>> -> Step<S>)
    ensures forall ts :: |ts| == |chans| ==> next(ts) == Round(alg, chans, ts)
  {
    ts => if |ts| == |chans| then Round(alg, chans, ts) else Stalled
  }

  /*---------------------------------------------------------------------------
   * The node loop
   *-------------------------------------------------------------------------*/

  /** How a run ends. */
  datatype Exit =
    | AllStopped    // the stop counter reached the node count
    | LimitReached  // `round_limit` rounds were run
    | TimedOut      // the deadline passed, or a receive blocked until it did

  /** The nodes' trackers at the end, the number of rounds whose messages
      were all delivered, and why the run ended. */
  datatype Finish<S> = Finish(trackers: seq<Tracker<S>>, rounds: nat, exit: Exit)

  /** A round function keeps the node count. */
  ghost predicate KeepsSize<S(!new)>(next: seq<Tracker<S>> -> Step<S>, n: nat)
  {
    forall ts: seq<Tracker<S>> :: |ts| == n && next(ts).Stepped? ==> |next(ts).trackers| == n
  }

  /** A round function reports, as newly stopped, exactly the increase of
      `count`, a count of stopped nodes that never exceeds the node count. */
  ghost predicate CountsStops<S(!new)>(next: seq<Tracker<S>> -> Step<S>, n: nat, count: seq<Tracker<S>> -> nat)
  {
    && (forall ts: seq<Tracker<S>> :: |ts| == n ==> count(ts) <= n)
    && (forall ts: seq<Tracker<S>> :: |ts| == n && next(ts).Stepped? ==> count(ts) + next(ts).newly == count(next(ts).trackers))
  }

  /** The node loop, run by all `n` nodes in lock step: `next` is one round,
      `stops` the shared stop counter, `rounds` the rounds done so far (the
      source's `iterations`) and `budget` the rounds left before the
      deadline. */
  function Loop<S(!new)>(next: seq<Tracker<S>> -> Step<S>, n: nat, ts: seq<Tracker<S>>,
                         stops: nat, rounds: nat, roundLimit: nat, budget: nat): (r: Result<Finish<S>>)
    requires |ts| == n && KeepsSize(next, n)
    ensures r.Fail? ==> r.panic == PostStopTransition
    ensures r.Ok? ==> |r.value.trackers| == n && rounds <= r.value.rounds <= rounds + budget
    decreases budget
  {
    if budget == 0 then Ok(Finish(ts, rounds, TimedOut))
    else
      match next(ts)
      case Stalled => Ok(Finish(ts, rounds, TimedOut))
      case Panicked => Fail(PostStopTransition)
      case Stepped(ts', newly) =>
        if stops + newly >= n then Ok(Finish(ts', rounds + 1, AllStopped))
        else if roundLimit > 0 && rounds + 1 >= roundLimit then Ok(Finish(ts', rounds + 1, LimitReached))
        else Loop(next, n, ts', stops + newly, rounds + 1, roundLimit, budget - 1)
  }

  /*---------------------------------------------------------------------------
   * Runs
   *-------------------------------------------------------------------------*/

  /** The number of states that are not outputs. */
  function Unfinished<S, M>(alg: Algorithm<S, M>, states: seq<S>): (c: nat)
    ensures c <= |states|
    ensures c == 0 <==> forall v :: 0 <= v < |states| ==> alg.isOutput(states[v])
  {
    if |states| == 0 then 0
    else (if alg.isOutput(states[0]) then 0 else 1) + Unfinished(alg, states[1..])
  }

  /** The verdict `run` prints. */
  datatype Report = Report(rounds: nat, exit: Exit, unfinished: nat, successful: bool)

  function States<S>(ts: seq<Tracker<S>>): (states: seq<S>)
    ensures |states| == |ts| && forall v :: 0 <= v < |ts| ==> states[v] == ts[v].state
  {
    seq(|ts|, v requires 0 <= v < |ts| => ts[v].state)
  }

  /** The trackers a run starts from: every node in its current state, none
      stopped. */
  function StartTrackers<S>(states: seq<S>): (ts: seq<Tracker<S>>)
    ensures |ts| == |states| && Stopped(ts) == 0
    ensures forall v :: 0 <= v < |ts| ==> ts[v] == Tracker(states[v], None)
  {
    if |states| == 0 then []
    else [Tracker(states[0], None)] + StartTrackers(states[1..])
  }

  /** `DaSimulator::run`: acquire every port's channels, run the node loop
      from the current states with a zero stop counter, and report how many
      nodes did not end in an output state. The simulator keeps the final
      states and the edges as acquisition left them. */
  function Run<S(!new), M>(alg: Algorithm<S, M>, sim: Sim<S>, roundLimit: nat, budget: nat): (r: Result<(Sim<S>, Report)>)
    requires Valid(sim)
    ensures r.Fail? ==> r.panic == ThirdEndpoint || r.panic == PostStopTransition
    ensures r.Ok? ==> |r.value.0.states| == |sim.states| && r.value.0.links == sim.links && Valid(r.value.0)
    ensures r.Ok? ==> (r.value.1.successful <==> forall v :: 0 <= v < |sim.states| ==> alg.isOutput(r.value.0.states[v]))
    ensures r.Ok? ==> r.value.1.rounds <= budget
  {
    var pt := PortTableOf(sim);
    match AcquireNodes(sim.edges, pt, 0)
    case Fail(p) => Fail(p)
    case Ok((edges, chans)) =>
      RoundKeepsSize(alg, chans);
      match Loop(RoundOf(alg, chans), |chans|, StartTrackers(sim.states), 0, 0, roundLimit, budget)
      case Fail(p) => Fail(p)
      case Ok(fin) =>
        var states := States(fin.trackers);
        var unfinished := Unfinished(alg, states);
        Ok((Sim(states, sim.links, edges), Report(fin.rounds, fin.exit, unfinished, unfinished == 0)))
  }

  /*---------------------------------------------------------------------------
   * Construction
   *-------------------------------------------------------------------------*/

  /** The degree `from_network` counts in advance for each node, and hands to
      `init`, is the number of ports the node has in a run (on graphs without
      self-loops, where a loop would be counted twice but listed once). */
  lemma InitSeesPortCount<S, M>(alg: Algorithm<S, M>, es: seq<(NodeId, NodeId)>)
    requires FromNetwork(alg, es).Ok? && LoopFree(es)
    ensures
      var sim := FromNetwork(alg, es).value;
      forall v :: 0 <= v < |sim.states| ==>
        sim.states[v] == alg.init(Input(v, |sim.states|, |PortTableOf(sim)[v]|))
  {
    var sim := FromNetwork(alg, es).value;
    forall v | 0 <= v < |sim.states|
      ensures sim.states[v] == alg.init(Input(v, |sim.states|, |PortTableOf(sim)[v]|))
    {
      PortCountIsDegree(es, v);
    }
  }

  /** A simulator fresh from construction over a graph without self-loops has
      a proper port table and edges that have handed out no endpoint yet. */
  lemma FreshSimIsProper<S, M>(alg: Algorithm<S, M>, es: seq<(NodeId, NodeId)>)
    requires FromNetwork(alg, es).Ok? && LoopFree(es)
    ensures
      var sim := FromNetwork(alg, es).value;
      && Proper(sim.links, PortTableOf(sim))
      && sim.edges == DefaultEdges(|sim.links|)
      && exists k :: 0 <= k < |sim.links| && sim.links[k].0 != sim.links[k].1
  {
    var sim := FromNetwork(alg, es).value;
    PortsFormPortTable(sim.links, |sim.states|);
    assert sim.links[0] == Normalize(es[0]);
  }

  /*---------------------------------------------------------------------------
   * Properties of a round
   *-------------------------------------------------------------------------*/

  /** Counting the nodes that stop in a step, when no stopped node restarts,
      keeps the counter equal to the number of stopped nodes. */
  lemma {:induction false} CounterAddsUp<S>(ts: seq<Tracker<S>>, ts': seq<Tracker<S>>)
    requires |ts| == |ts'|
    requires forall v :: 0 <= v < |ts| && ts[v].stopping.Some? ==> ts'[v].stopping.Some?
    ensures Stopped(ts) + NewlyStopped(ts, ts') == Stopped(ts')
  {
    if |ts| > 0 {
      CounterAddsUp(ts[1..], ts'[1..]);
    }
  }

  /** A run's rounds keep the node count. */
  lemma RoundKeepsSize<S(!new), M>(alg: Algorithm<S, M>, chans: seq<seq<Endpoint>>)
    ensures KeepsSize(RoundOf(alg, chans), |chans|)
  {
  }

  /** A run's rounds keep the stop counter equal to the number of stopped
      nodes. */
  lemma RoundCountsStops<S(!new), M>(alg: Algorithm<S, M>, chans: seq<seq<Endpoint>>)
    ensures CountsStops(RoundOf(alg, chans), |chans|, Stopped)
  {
  }

  /** Every stopped node stopped in an output state and is in that state or
      in one equal to it. */
  ghost predicate Consistent<S, M>(alg: Algorithm<S, M>, ts: seq<Tracker<S>>)
  {
    forall v :: 0 <= v < |ts| ==> TrackerOk(alg, ts[v])
  }

  ghost predicate TrackerOk<S, M>(alg: Algorithm<S, M>, t: Tracker<S>)
  {
    t.stopping.Some? ==>
      && alg.isOutput(t.stopping.value)
      && (t.state == t.stopping.value || alg.same(t.state, t.stopping.value))
  }

  /** The consistency of trackers, as a predicate a round may preserve. */
  ghost function ConsistentOf<S(!new), M>(alg: Algorithm<S, M>): (inv: seq<Tracker<S>> -> bool)
    ensures forall ts :: inv(ts) == Consistent(alg, ts)
  {
    ts => Consistent(alg, ts)
  }

  /** One node's bookkeeping keeps it consistent: a node stops only in an
      output state, and a stopped node that passes the post-stop check is in
      a state equal to its stopping state. */
  lemma SettleKeepsConsistent<S, M>(alg: Algorithm<S, M>, t: Tracker<S>, msgs: seq<M>)
    requires TrackerOk(alg, t) && Settle(alg, t, msgs).Some?
    ensures TrackerOk(alg, Settle(alg, t, msgs).value)
  {
  }

  /** Every round keeps the trackers consistent. */
  lemma RoundKeepsConsistent<S(!new), M>(alg: Algorithm<S, M>, chans: seq<seq<Endpoint>>)
    ensures Preserves(RoundOf(alg, chans), ConsistentOf(alg))
  {
    forall ts: seq<Tracker<S>> | Consistent(alg, ts) && RoundOf(alg, chans)(ts).Stepped?
      ensures Consistent(alg, RoundOf(alg, chans)(ts).trackers)
    {
      var inbox := Exchange(chans, Outboxes(alg, chans, ts)).value;
      var ts' := RoundOf(alg, chans)(ts).trackers;
      forall v | 0 <= v < |ts| ensures TrackerOk(alg, ts'[v]) {
        assert TrackerOk(alg, ts[v]);
        SettleKeepsConsistent(alg, ts[v], inbox[v]);
      }
    }
  }

  /** Under `PostStopSafe`, a round of consistent trackers never trips the
      post-stop check. */
  lemma SafeRoundNeverPanics<S(!new), M(!new)>(alg: Algorithm<S, M>, chans: seq<seq<Endpoint>>)
    requires PostStopSafe(alg)
    ensures SafeUnder(RoundOf(alg, chans), ConsistentOf(alg))
  {
    forall ts: seq<Tracker<S>> | Consistent(alg, ts) ensures !RoundOf(alg, chans)(ts).Panicked? {
      if |ts| == |chans| {
        match Exchange(chans, Outboxes(alg, chans, ts))
        case None =>
        case Some(inbox) =>
          forall v | 0 <= v < |ts| ensures Settle(alg, ts[v], inbox[v]).Some? {
            assert TrackerOk(alg, ts[v]);
          }
      }
    }
  }

  /** What node `v` hears in a round on a fresh network: on each port, the
      message its peer sends on the peer's port of the same edge. */
  ghost function Heard<S, M>(alg: Algorithm<S, M>, links: seq<Link>, pt: seq<seq<nat>>, ts: seq<Tracker<S>>, v: nat): (msgs: seq<M>)
    requires Proper(links, pt) && |ts| == |pt| && v < |pt|
    ensures |msgs| == |pt[v]|
  {
    seq(|pt[v]|, p requires 0 <= p < |pt[v]| =>
      var pr := Peer(links, pt, v, p);
      alg.send(ts[pr.0].state, pr.1))
  }

  /** On a fresh network without self-loops, a round never blocks, and it is
      a round of the port-numbering model: every node's new state is its
      receive of what its neighbours sent it over each port. */
  lemma FreshRoundIsSynchronous<S, M>(alg: Algorithm<S, M>, links: seq<Link>, pt: seq<seq<nat>>,
                                      chans: seq<seq<Endpoint>>, ts: seq<Tracker<S>>)
    requires Proper(links, pt) && FreshChannels(links, pt, chans) && |ts| == |pt|
    ensures !Round(alg, chans, ts).Stalled?
    ensures
      var r := Round(alg, chans, ts);
      r.Stepped? ==> forall v :: 0 <= v < |ts| ==> r.trackers[v].state == alg.receive(ts[v].state, Heard(alg, links, pt, ts, v))
  {
    var outs := Outboxes(alg, chans, ts);
    FreshExchange(links, pt, chans, outs);
    var inbox := Exchange(chans, outs).value;
    var r := Round(alg, chans, ts);
    if r.Stepped? {
      forall v | 0 <= v < |ts|
        ensures r.trackers[v].state == alg.receive(ts[v].state, Heard(alg, links, pt, ts, v))
      {
        assert Settle(alg, ts[v], inbox[v]) == Some(r.trackers[v]);
        assert inbox[v] == Heard(alg, links, pt, ts, v);
      }
    }
  }

  /*---------------------------------------------------------------------------
   * Properties of the node loop
   *-------------------------------------------------------------------------*/

  /** The loop runs at most `roundLimit` rounds when that is positive, and
      exactly that many when it ends at the limit; it ends without a
      completed round only when it times out. */
  lemma {:induction false} LoopRespectsLimit<S(!new)>(next: seq<Tracker<S>> -> Step<S>, n: nat, ts: seq<Tracker<S>>,
                                                      stops: nat, rounds: nat, roundLimit: nat, budget: nat)
    requires |ts| == n && KeepsSize(next, n)
    requires roundLimit > 0 ==> rounds < roundLimit
    ensures
      var r := Loop(next, n, ts, stops, rounds, roundLimit, budget);
      r.Ok? ==>
        && (roundLimit > 0 ==> r.value.rounds <= roundLimit)
        && (r.value.exit == LimitReached ==> r.value.rounds == roundLimit)
        && (r.value.exit != TimedOut ==> r.value.rounds > rounds)
    decreases budget
  {
    if budget > 0 {
      match next(ts)
      case Stalled =>
      case Panicked =>
      case Stepped(ts', newly) =>
        if stops + newly < n && !(roundLimit > 0 && rounds + 1 >= roundLimit) {
          LoopRespectsLimit(next, n, ts', stops + newly, rounds + 1, roundLimit, budget - 1);
        }
    }
  }

  /** The loop's counter stays equal to the number of stopped nodes, so the
      loop ends with all nodes stopped exactly when every node has stopped. */
  lemma {:induction false} LoopCountsStops<S(!new)>(next: seq<Tracker<S>> -> Step<S>, n: nat, count: seq<Tracker<S>> -> nat,
                                                    ts: seq<Tracker<S>>, stops: nat, rounds: nat, roundLimit: nat, budget: nat)
    requires |ts| == n && KeepsSize(next, n) && CountsStops(next, n, count)
    requires stops == count(ts) < n
    ensures
      var r := Loop(next, n, ts, stops, rounds, roundLimit, budget);
      r.Ok? ==> (r.value.exit == AllStopped <==> count(r.value.trackers) == n)
    decreases budget
  {
    if budget > 0 && next(ts).Stepped? {
      var ts', newly := next(ts).trackers, next(ts).newly;
      if stops + newly < n && !(roundLimit > 0 && rounds + 1 >= roundLimit) {
        LoopCountsStops(next, n, count, ts', stops + newly, rounds + 1, roundLimit, budget - 1);
      }
    }
  }

  /** A predicate on trackers that every round keeps. */
  ghost predicate Preserves<S(!new)>(next: seq<Tracker<S>> -> Step<S>, inv: seq<Tracker<S>> -> bool)
  {
    forall ts: seq<Tracker<S>> :: inv(ts) && next(ts).Stepped? ==> inv(next(ts).trackers)
  }

  /** Rounds that never panic on trackers satisfying a predicate. */
  ghost predicate SafeUnder<S(!new)>(next: seq<Tracker<S>> -> Step<S>, inv: seq<Tracker<S>> -> bool)
  {
    forall ts: seq<Tracker<S>> :: inv(ts) ==> !next(ts).Panicked?
  }

  /** A predicate every round keeps holds of the trackers the loop ends with. */
  lemma {:induction false} LoopPreserves<S(!new)>(next: seq<Tracker<S>> -> Step<S>, n: nat, inv: seq<Tracker<S>> -> bool,
                                                  ts: seq<Tracker<S>>, stops: nat, rounds: nat, roundLimit: nat, budget: nat)
    requires |ts| == n && KeepsSize(next, n) && Preserves(next, inv) && inv(ts)
    ensures
      var r := Loop(next, n, ts, stops, rounds, roundLimit, budget);
      r.Ok? ==> inv(r.value.trackers)
    decreases budget
  {
    if budget > 0 && next(ts).Stepped? {
      var ts', newly := next(ts).trackers, next(ts).newly;
      if stops + newly < n && !(roundLimit > 0 && rounds + 1 >= roundLimit) {
        LoopPreserves(next, n, inv, ts', stops + newly, rounds + 1, roundLimit, budget - 1);
      }
    }
  }

  /** A loop whose rounds keep a predicate and never panic under it never
      panics when started from trackers satisfying it. */
  lemma {:induction false} SafeLoopNeverPanics<S(!new)>(next: seq<Tracker<S>> -> Step<S>, n: nat, inv: seq<Tracker<S>> -> bool,
                                                        ts: seq<Tracker<S>>, stops: nat, rounds: nat, roundLimit: nat, budget: nat)
    requires |ts| == n && KeepsSize(next, n) && Preserves(next, inv) && SafeUnder(next, inv) && inv(ts)
    ensures Loop(next, n, ts, stops, rounds, roundLimit, budget).Ok?
    decreases budget
  {
    if budget > 0 && next(ts).Stepped? {
      var ts', newly := next(ts).trackers, next(ts).newly;
      if stops + newly < n && !(roundLimit > 0 && rounds + 1 >= roundLimit) {
        SafeLoopNeverPanics(next, n, inv, ts', stops + newly, rounds + 1, roundLimit, budget - 1);
      }
    }
  }

  /** A loop whose rounds never block times out only when the deadline's
      whole budget of rounds has been used. */
  lemma {:induction false} LoopTimesOutAtDeadline<S(!new)>(next: seq<Tracker<S>> -> Step<S>, n: nat, ts: seq<Tracker<S>>,
                                                           stops: nat, rounds: nat, roundLimit: nat, budget: nat)
    requires |ts| == n && KeepsSize(next, n)
    requires forall t: seq<Tracker<S>> :: |t| == n ==> !next(t).Stalled?
    ensures
      var r := Loop(next, n, ts, stops, rounds, roundLimit, budget);
      r.Ok? && r.value.exit == TimedOut ==> r.value.rounds == rounds + budget
    decreases budget
  {
    if budget > 0 && next(ts).Stepped? {
      var ts', newly := next(ts).trackers, next(ts).newly;
      if stops + newly < n && !(roundLimit > 0 && rounds + 1 >= roundLimit) {
        LoopTimesOutAtDeadline(next, n, ts', stops + newly, rounds + 1, roundLimit, budget - 1);
      }
    }
  }

  /*---------------------------------------------------------------------------
   * Properties of a run
   *-------------------------------------------------------------------------*/

  /** How a run that acquired its channels continues: the node loop from the
      start trackers. */
  lemma RunUnfolds<S(!new), M>(alg: Algorithm<S, M>, sim: Sim<S>, roundLimit: nat, budget: nat)
    requires Valid(sim)
    requires AcquireNodes(sim.edges, PortTableOf(sim), 0).Ok?
    ensures
      var acq := AcquireNodes(sim.edges, PortTableOf(sim), 0).value;
      && |acq.1| == |sim.states|
      && KeepsSize(RoundOf(alg, acq.1), |acq.1|)
      && var l := Loop(RoundOf(alg, acq.1), |acq.1|, StartTrackers(sim.states), 0, 0, roundLimit, budget);
      var r := Run(alg, sim, roundLimit, budget);
      && (l.Fail? ==> r == Fail(l.panic))
      && (l.Ok? ==> r.Ok? && r.value.0.states == States(l.value.trackers) && r.value.0.edges == acq.0
                    && r.value.1.rounds == l.value.rounds && r.value.1.exit == l.value.exit)
  {
    var acq := AcquireNodes(sim.edges, PortTableOf(sim), 0).value;
    RoundKeepsSize(alg, acq.1);
  }

  /** A run that ends because every node stopped is successful when being an
      output respects the state's equality. */
  lemma AllStoppedRunSucceeds<S(!new), M>(alg: Algorithm<S, M>, sim: Sim<S>, roundLimit: nat, budget: nat)
    requires Valid(sim) && |sim.states| > 0 && OutputRespectsSame(alg)
    ensures
      var r := Run(alg, sim, roundLimit, budget);
      r.Ok? && r.value.1.exit == AllStopped ==> r.value.1.successful
  {
    if AcquireNodes(sim.edges, PortTableOf(sim), 0).Ok? {
      RunUnfolds(alg, sim, roundLimit, budget);
      var chans := AcquireNodes(sim.edges, PortTableOf(sim), 0).value.1;
      LoopEndsInOutputs(alg, chans, StartTrackers(sim.states), roundLimit, budget);
    }
  }

  /** A node loop from fresh trackers that ends with every node stopped ends
      with every node in an output state, provided being an output respects
      the state's equality. */
  lemma LoopEndsInOutputs<S(!new), M>(alg: Algorithm<S, M>, chans: seq<seq<Endpoint>>, ts: seq<Tracker<S>>,
                                      roundLimit: nat, budget: nat)
    requires |ts| == |chans| > 0 && KeepsSize(RoundOf(alg, chans), |chans|)
    requires Stopped(ts) == 0 && Consistent(alg, ts) && OutputRespectsSame(alg)
    ensures
      var r := Loop(RoundOf(alg, chans), |chans|, ts, 0, 0, roundLimit, budget);
      r.Ok? && r.value.exit == AllStopped ==> forall v :: 0 <= v < |chans| ==> alg.isOutput(States(r.value.trackers)[v])
  {
    var next := RoundOf(alg, chans);
    RoundCountsStops(alg, chans);
    LoopCountsStops(next, |chans|, Stopped, ts, 0, 0, roundLimit, budget);
    RoundKeepsConsistent(alg, chans);
    LoopPreserves(next, |chans|, ConsistentOf(alg), ts, 0, 0, roundLimit, budget);
    var r := Loop(next, |chans|, ts, 0, 0, roundLimit, budget);
    if r.Ok? && r.value.exit == AllStopped {
      StoppedAreOutputs(alg, r.value.trackers);
    }
  }

  /** When every node has stopped on consistent trackers, every node is in an
      output state, provided being an output respects the state's equality. */
  lemma StoppedAreOutputs<S(!new), M>(alg: Algorithm<S, M>, ts: seq<Tracker<S>>)
    requires Consistent(alg, ts) && Stopped(ts) == |ts| && OutputRespectsSame(alg)
    ensures forall v :: 0 <= v < |ts| ==> alg.isOutput(States(ts)[v])
  {
    StoppedIsAll(ts);
    forall v | 0 <= v < |ts| ensures alg.isOutput(States(ts)[v]) {
      assert TrackerOk(alg, ts[v]);
    }
  }

  /** A run that ends at the round limit ran exactly `roundLimit` rounds, a
      positive limit is never exceeded, and every verdict but a timeout comes
      after at least one round, even when every node starts in an output
      state. */
  lemma RunRespectsLimit<S(!new), M>(alg: Algorithm<S, M>, sim: Sim<S>, roundLimit: nat, budget: nat)
    requires Valid(sim)
    ensures
      var r := Run(alg, sim, roundLimit, budget);
      r.Ok? ==>
        && (roundLimit > 0 ==> r.value.1.rounds <= roundLimit)
        && (r.value.1.exit == LimitReached ==> r.value.1.rounds == roundLimit)
        && (r.value.1.exit != TimedOut ==> r.value.1.rounds >= 1)
  {
    var r := Run(alg, sim, roundLimit, budget);
    var acq := AcquireNodes(sim.edges, PortTableOf(sim), 0);
    if r.Ok? {
      assert acq.Ok?;
      RunUnfolds(alg, sim, roundLimit, budget);
      var chans := acq.value.1;
      LoopRespectsLimit(RoundOf(alg, chans), |chans|, StartTrackers(sim.states), 0, 0, roundLimit, budget);
    }
  }

  /** Under `PostStopSafe`, a run can only panic when acquiring its channels. */
  lemma SafeRunOnlyPanicsOnAcquiring<S(!new), M(!new)>(alg: Algorithm<S, M>, sim: Sim<S>, roundLimit: nat, budget: nat)
    requires Valid(sim) && PostStopSafe(alg)
    ensures Run(alg, sim, roundLimit, budget).Fail? ==> Run(alg, sim, roundLimit, budget).panic == ThirdEndpoint
  {
    if AcquireNodes(sim.edges, PortTableOf(sim), 0).Ok? {
      RunUnfolds(alg, sim, roundLimit, budget);
      var chans := AcquireNodes(sim.edges, PortTableOf(sim), 0).value.1;
      RoundKeepsConsistent(alg, chans);
      SafeRoundNeverPanics(alg, chans);
      SafeLoopNeverPanics(RoundOf(alg, chans), |chans|, ConsistentOf(alg), StartTrackers(sim.states), 0, 0, roundLimit, budget);
    }
  }

  /** On a simulator fresh from construction over a graph without self-loops,
      acquisition succeeds and leaves every edge connected, and the run only
      times out once the deadline's budget of rounds is used up. */
  lemma FreshRun<S(!new), M>(alg: Algorithm<S, M>, es: seq<(NodeId, NodeId)>, roundLimit: nat, budget: nat)
    requires FromNetwork(alg, es).Ok? && LoopFree(es)
    ensures
      var sim := FromNetwork(alg, es).value;
      var r := Run(alg, sim, roundLimit, budget);
      && (r.Ok? ==> forall k :: 0 <= k < |r.value.0.edges| ==> r.value.0.edges[k] == Edge(None, true))
      && (r.Ok? && r.value.1.exit == TimedOut ==> r.value.1.rounds == budget)
  {
    var sim := FromNetwork(alg, es).value;
    var pt := PortTableOf(sim);
    FreshSimIsProper(alg, es);
    FreshAcquisition(sim.links, pt);
    var acq := AcquireNodes(sim.edges, pt, 0).value;
    RunUnfolds(alg, sim, roundLimit, budget);
    var next := RoundOf(alg, acq.1);
    forall t: seq<Tracker<S>> | |t| == |acq.1| ensures !next(t).Stalled? {
      FreshRoundIsSynchronous(alg, sim.links, pt, acq.1, t);
    }
    LoopTimesOutAtDeadline(next, |acq.1|, StartTrackers(sim.states), 0, 0, roundLimit, budget);
  }

  /** Under `PostStopSafe`, running a simulator fresh from construction over a
      graph without self-loops never panics. */
  lemma SafeFreshRunSucceeds<S(!new), M(!new)>(alg: Algorithm<S, M>, es: seq<(NodeId, NodeId)>, roundLimit: nat, budget: nat)
    requires FromNetwork(alg, es).Ok? && LoopFree(es) && PostStopSafe(alg)
    ensures Run(alg, FromNetwork(alg, es).value, roundLimit, budget).Ok?
  {
    var sim := FromNetwork(alg, es).value;
    FreshSimIsProper(alg, es);
    FreshAcquisition(sim.links, PortTableOf(sim));
    SafeRunOnlyPanicsOnAcquiring(alg, sim, roundLimit, budget);
  }

  /** Running a simulator a second time panics whenever some given edge is
      not a self-loop: the first run connected that edge, so its second
      acquisition finds it connected. Self-loops are acquired once per run
      and do not matter. */
  lemma SecondRunPanics<S(!new), M>(alg: Algorithm<S, M>, es: seq<(NodeId, NodeId)>, roundLimit: nat, budget: nat,
                                    roundLimit2: nat, budget2: nat)
    requires FromNetwork(alg, es).Ok? && exists k :: 0 <= k < |es| && es[k].0 != es[k].1
    requires Run(alg, FromNetwork(alg, es).value, roundLimit, budget).Ok?
    ensures
      var sim := Run(alg, FromNetwork(alg, es).value, roundLimit, budget).value.0;
      Run(alg, sim, roundLimit2, budget2) == Fail(ThirdEndpoint)
  {
    var sim0 := FromNetwork(alg, es).value;
    var sim := Run(alg, sim0, roundLimit, budget).value.0;
    var pt := PortTableOf(sim0);
    PortsFormPortTable(sim0.links, |sim0.states|);
    assert sim0.edges == DefaultEdges(|sim0.links|);
    FirstAcquisitionConnects(sim0.links, pt);
    RunUnfolds(alg, sim0, roundLimit, budget);
    var k :| 0 <= k < |es| && es[k].0 != es[k].1;
    assert sim.links[k].0 != sim.links[k].1;
    SecondAcquisitionPanics(sim.links, PortTableOf(sim), sim.edges);
  }
}
