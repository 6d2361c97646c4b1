/** How a run hands out the channels of the network and moves one round's
    messages: every node acquires, port by port and node by node, one endpoint
    from each of its edges; each node then puts one message on each of its
    sender channels and takes one from each of its receiver channels.

    The ports of the nodes come as a table `pt`: `pt[v]` lists the edges at
    node `v` in port order (`Graph.Ports`). */
module Wiring {
  import opened Types
  import opened Graph

  /** Every entry of the table names one of `m` edges. */
  predicate InRange(pt: seq<seq<nat>>, m: nat)
  {
    forall u, i :: 0 <= u < |pt| && 0 <= i < |pt[u]| ==> pt[u][i] < m
  }

  /** `pt[v]` lists every stored edge at `v` exactly once. */
  ghost predicate PortTable(links: seq<Link>, pt: seq<seq<nat>>)
  {
    forall v :: 0 <= v < |pt| ==>
      && Distinct(pt[v])
      && forall k: nat :: k in pt[v] <==> k < |links| && (links[k].0 == v || links[k].1 == v)
  }

  /** Stored edges without self-loops, all ends among the `|pt|` nodes, and
      their port table. */
  ghost predicate Proper(links: seq<Link>, pt: seq<seq<nat>>)
  {
    && Normalized(links)
    && LoopFree(links)
    && (forall k :: 0 <= k < |links| ==> links[k].1 < |pt|)
    && PortTable(links, pt)
  }

  /** The table of `Graph.Ports` for nodes `0..n-1` is a port table. */
  lemma PortsFormPortTable(links: seq<Link>, n: nat)
    ensures var pt := seq(n, (v: nat) => Ports(links, v));
      PortTable(links, pt) && InRange(pt, |links|)
  {
  }

  /*---------------------------------------------------------------------------
   * Acquisition
   *-------------------------------------------------------------------------*/

  /** The endpoints of ports `p..` of node `v`, acquired in port order from the
      edges `ps` lists. */
  function AcquirePorts(edges: seq<Edge>, ps: seq<nat>, v: nat, p: nat): (r: Result<(seq<Edge>, seq<Endpoint>)>)
    requires p <= |ps|
    requires forall i :: 0 <= i < |ps| ==> ps[i] < |edges|
    ensures r.Ok? ==> |r.value.0| == |edges| && |r.value.1| == |ps| - p
    ensures r.Fail? ==> r.panic == ThirdEndpoint
    decreases |ps| - p
  {
    if p == |ps| then Ok((edges, []))
    else
      match AcquireEndpoint(edges[ps[p]], v, p)
      case Fail(e) => Fail(e)
      case Ok((e', ep)) =>
        match AcquirePorts(edges[ps[p] := e'], ps, v, p + 1)
        case Fail(e) => Fail(e)
        case Ok((edges', eps)) => Ok((edges', [ep] + eps))
  }

  /** The endpoints of all ports of nodes `v..`, node by node: the per-node
      sender and receiver lists a run builds before it starts the nodes. */
  function AcquireNodes(edges: seq<Edge>, pt: seq<seq<nat>>, v: nat): (r: Result<(seq<Edge>, seq<seq<Endpoint>>)>)
    requires InRange(pt, |edges|) && v <= |pt|
    ensures r.Ok? ==> |r.value.0| == |edges| && |r.value.1| == |pt| - v
    ensures r.Ok? ==> forall u :: 0 <= u < |pt| - v ==> |r.value.1[u]| == |pt[v + u]|
    ensures r.Fail? ==> r.panic == ThirdEndpoint
    decreases |pt| - v
  {
    if v == |pt| then Ok((edges, []))
    else
      match AcquirePorts(edges, pt[v], v, 0)
      case Fail(e) => Fail(e)
      case Ok((edges', eps)) =>
        match AcquireNodes(edges', pt, v + 1)
        case Fail(e) => Fail(e)
        case Ok((edges'', chans)) => Ok((edges'', [eps] + chans))
  }

  function DefaultEdges(m: nat): (es: seq<Edge>)
    ensures |es| == m && forall k :: 0 <= k < m ==> es[k] == DefaultEdge()
  {
    seq(m, _ => DefaultEdge())
  }

  /** Port `q` of node `u` acquires before port `p` of node `v`. */
  predicate Before(u: nat, q: nat, v: nat, p: nat)
  {
    u < v || (u == v && q < p)
  }

  /** The port of edge `k` at its end `u`. */
  function PortAt(links: seq<Link>, pt: seq<seq<nat>>, k: nat, u: nat): (q: nat)
    requires PortTable(links, pt)
    requires k < |links| && (links[k].0 == u || links[k].1 == u) && u < |pt|
    ensures q < |pt[u]| && pt[u][q] == k
  {
    IndexOf(pt[u], k)
  }

  /** Port `p` of `v` is the only port of `v` on its edge. */
  lemma PortAtIsUnique(links: seq<Link>, pt: seq<seq<nat>>, v: nat, p: nat)
    requires PortTable(links, pt)
    requires v < |pt| && p < |pt[v]|
    ensures pt[v][p] < |links|
    ensures PortAt(links, pt, pt[v][p], v) == p
  {
    assert pt[v][p] in pt[v];
  }

  /** The endpoint port `p` of node `v` holds after acquisition on a fresh
      network: the source (smaller end) of an edge acquires first and gets the
      freshly minted end; the target takes the end stored by the source. */
  function FreshEndpoint(links: seq<Link>, pt: seq<seq<nat>>, v: nat, p: nat): Endpoint
    requires Proper(links, pt)
    requires v < |pt| && p < |pt[v]|
  {
    PortAtIsUnique(links, pt, v, p);
    var k := pt[v][p];
    var s := links[k].0;
    if s == v then Endpoint(ChannelId(v, p, true), ChannelId(v, p, false))
    else
      var q := PortAt(links, pt, k, s);
      Endpoint(ChannelId(s, q, false), ChannelId(s, q, true))
  }

  /** The endpoints of node `v`'s ports after acquisition on a fresh network. */
  function FreshPorts(links: seq<Link>, pt: seq<seq<nat>>, v: nat): (eps: seq<Endpoint>)
    requires Proper(links, pt) && v < |pt|
    ensures |eps| == |pt[v]| && forall p :: 0 <= p < |pt[v]| ==> eps[p] == FreshEndpoint(links, pt, v, p)
  {
    seq(|pt[v]|, p requires 0 <= p < |pt[v]| => FreshEndpoint(links, pt, v, p))
  }

  /** The per-node endpoint lists after acquisition on a fresh network. */
  function FreshTable(links: seq<Link>, pt: seq<seq<nat>>): (chans: seq<seq<Endpoint>>)
    requires Proper(links, pt)
    ensures |chans| == |pt| && forall v :: 0 <= v < |pt| ==> chans[v] == FreshPorts(links, pt, v) && |chans[v]| == |pt[v]|
  {
    seq(|pt|, v requires 0 <= v < |pt| => FreshPorts(links, pt, v))
  }

  /** The state of edge `k` on a fresh network once every port before port
      `p` of node `v` has acquired its endpoint. */
  function ExpectedEdge(links: seq<Link>, pt: seq<seq<nat>>, k: nat, v: nat, p: nat): Edge
    requires Proper(links, pt)
    requires k < |links|
  {
    var s := links[k].0;
    var t := links[k].1;
    var qs := PortAt(links, pt, k, s);
    var qt := PortAt(links, pt, k, t);
    if Before(t, qt, v, p) then Edge(None, true)
    else if Before(s, qs, v, p) then Edge(Some(Endpoint(ChannelId(s, qs, false), ChannelId(s, qs, true))), false)
    else DefaultEdge()
  }

  ghost predicate EdgesAsExpected(links: seq<Link>, pt: seq<seq<nat>>, edges: seq<Edge>, v: nat, p: nat)
    requires Proper(links, pt)
  {
    |edges| == |links| && forall k :: 0 <= k < |links| ==> edges[k] == ExpectedEdge(links, pt, k, v, p)
  }

  lemma ExpectedAtNodeEnd(links: seq<Link>, pt: seq<seq<nat>>, edges: seq<Edge>, v: nat)
    requires Proper(links, pt) && v < |pt|
    requires EdgesAsExpected(links, pt, edges, v, |pt[v]|)
    ensures EdgesAsExpected(links, pt, edges, v + 1, 0)
  {
    forall k | 0 <= k < |links|
      ensures ExpectedEdge(links, pt, k, v, |pt[v]|) == ExpectedEdge(links, pt, k, v + 1, 0)
    {
      var qs := PortAt(links, pt, k, links[k].0);
      var qt := PortAt(links, pt, k, links[k].1);
      assert Before(links[k].0, qs, v, |pt[v]|) == Before(links[k].0, qs, v + 1, 0);
      assert Before(links[k].1, qt, v, |pt[v]|) == Before(links[k].1, qt, v + 1, 0);
    }
  }

  /** Acquiring one endpoint moves the fresh network's edges on by one port. */
  lemma FreshAcquireStep(links: seq<Link>, pt: seq<seq<nat>>, edges: seq<Edge>, v: nat, p: nat)
    requires Proper(links, pt)
    requires v < |pt| && p < |pt[v]|
    requires EdgesAsExpected(links, pt, edges, v, p)
    ensures pt[v][p] < |edges|
    ensures
      var k := pt[v][p];
      var r := AcquireEndpoint(edges[k], v, p);
      && r.Ok?
      && r.value.1 == FreshEndpoint(links, pt, v, p)
      && EdgesAsExpected(links, pt, edges[k := r.value.0], v, p + 1)
  {
    PortAtIsUnique(links, pt, v, p);
    var k := pt[v][p];
    var r := AcquireEndpoint(edges[k], v, p);
    var edges' := edges[k := r.value.0];
    forall k' | 0 <= k' < |links|
      ensures edges'[k'] == ExpectedEdge(links, pt, k', v, p + 1)
    {
      if k' != k {
        var qs' := PortAt(links, pt, k', links[k'].0);
        var qt' := PortAt(links, pt, k', links[k'].1);
        assert !(links[k'].0 == v && qs' == p);
        assert !(links[k'].1 == v && qt' == p);
      }
    }
  }

  /** One step of `AcquirePorts` once the first endpoint is handed out. */
  lemma AcquirePortsStep(edges: seq<Edge>, ps: seq<nat>, v: nat, p: nat)
    requires p < |ps| && forall i :: 0 <= i < |ps| ==> ps[i] < |edges|
    requires AcquireEndpoint(edges[ps[p]], v, p).Ok?
    ensures
      var e := AcquireEndpoint(edges[ps[p]], v, p).value;
      var rest := AcquirePorts(edges[ps[p] := e.0], ps, v, p + 1);
      && (rest.Fail? ==> AcquirePorts(edges, ps, v, p) == rest)
      && (rest.Ok? ==> AcquirePorts(edges, ps, v, p) == Ok((rest.value.0, [e.1] + rest.value.1)))
  {
  }

  /** One step of `AcquireNodes` once the first node has its endpoints. */
  lemma AcquireNodesStep(edges: seq<Edge>, pt: seq<seq<nat>>, v: nat)
    requires InRange(pt, |edges|) && v < |pt|
    requires AcquirePorts(edges, pt[v], v, 0).Ok?
    ensures
      var e := AcquirePorts(edges, pt[v], v, 0).value;
      var rest := AcquireNodes(e.0, pt, v + 1);
      && (rest.Fail? ==> AcquireNodes(edges, pt, v) == rest)
      && (rest.Ok? ==> AcquireNodes(edges, pt, v) == Ok((rest.value.0, [e.1] + rest.value.1)))
  {
  }

  lemma {:induction false} FreshAcquirePorts(links: seq<Link>, pt: seq<seq<nat>>, edges: seq<Edge>, v: nat, p: nat)
    requires Proper(links, pt) && InRange(pt, |links|)
    requires v < |pt| && p <= |pt[v]|
    requires EdgesAsExpected(links, pt, edges, v, p)
    ensures
      var r := AcquirePorts(edges, pt[v], v, p);
      && r.Ok?
      && EdgesAsExpected(links, pt, r.value.0, v + 1, 0)
      && r.value.1 == FreshPorts(links, pt, v)[p..]
    decreases |pt[v]| - p
  {
    if p == |pt[v]| {
      ExpectedAtNodeEnd(links, pt, edges, v);
    } else {
      FreshAcquireStep(links, pt, edges, v, p);
      var k := pt[v][p];
      var r1 := AcquireEndpoint(edges[k], v, p);
      var edges' := edges[k := r1.value.0];
      FreshAcquirePorts(links, pt, edges', v, p + 1);
      AcquirePortsStep(edges, pt[v], v, p);
      ConsElement(FreshPorts(links, pt, v), p, r1.value.1);
    }
  }

  lemma {:induction false} FreshAcquireNodes(links: seq<Link>, pt: seq<seq<nat>>, edges: seq<Edge>, v: nat)
    requires Proper(links, pt) && InRange(pt, |links|) && v <= |pt|
    requires EdgesAsExpected(links, pt, edges, v, 0)
    ensures
      var r := AcquireNodes(edges, pt, v);
      && r.Ok?
      && EdgesAsExpected(links, pt, r.value.0, |pt|, 0)
      && r.value.1 == FreshTable(links, pt)[v..]
    decreases |pt| - v
  {
    if v < |pt| {
      FreshAcquirePorts(links, pt, edges, v, 0);
      var r1 := AcquirePorts(edges, pt[v], v, 0);
      FreshAcquireNodes(links, pt, r1.value.0, v + 1);
      AcquireNodesStep(edges, pt, v);
      ConsSuffix(FreshTable(links, pt), v, r1.value.1);
    }
  }

  /** A suffix of a sequence is its first element followed by the rest. */
  lemma ConsElement<T>(s: seq<T>, i: nat, x: T)
    requires i < |s| && x == s[i]
    ensures [x] + s[i + 1..] == s[i..]
  {
  }

  /** A suffix of a list of lists is its first list (given as a slice from 0) followed by the rest. */
  lemma ConsSuffix<T>(s: seq<seq<T>>, i: nat, x: seq<T>)
    requires i < |s| && x[0..] == s[i]
    ensures [x] + s[i + 1..] == s[i..]
  {
  }

  /** On a network fresh from construction without self-loops, acquisition
      succeeds, gives every port its `FreshEndpoint`, and leaves every edge
      empty and connected. */
  lemma FreshAcquisition(links: seq<Link>, pt: seq<seq<nat>>)
    requires Proper(links, pt) && InRange(pt, |links|)
    ensures
      var r := AcquireNodes(DefaultEdges(|links|), pt, 0);
      && r.Ok?
      && (forall k :: 0 <= k < |links| ==> r.value.0[k] == Edge(None, true))
      && r.value.1 == FreshTable(links, pt)
  {
    var d := DefaultEdges(|links|);
    assert EdgesAsExpected(links, pt, d, 0, 0);
    FreshAcquireNodes(links, pt, d, 0);
    var r := AcquireNodes(d, pt, 0);
    forall k | 0 <= k < |links| ensures r.value.0[k] == Edge(None, true) {
      assert Before(links[k].1, PortAt(links, pt, k, links[k].1), |pt|, 0);
    }
  }

  /*---------------------------------------------------------------------------
   * Cross-wiring
   *-------------------------------------------------------------------------*/

  /** The node and port at the other end of the edge on port `p` of `v`. */
  function Peer(links: seq<Link>, pt: seq<seq<nat>>, v: nat, p: nat): (r: (nat, nat))
    requires Proper(links, pt)
    requires v < |pt| && p < |pt[v]|
    ensures r.0 < |pt| && r.1 < |pt[r.0]| && r.0 != v
    ensures pt[r.0][r.1] == pt[v][p]
  {
    PortAtIsUnique(links, pt, v, p);
    var k := pt[v][p];
    var u := Neighbour(links, k, v);
    (u, PortAt(links, pt, k, u))
  }

  /** On a fresh network without self-loops, port `p` of `v` and its peer
      are cross-wired, and no other port sends on the channel `p` receives
      on: what one end sends, exactly the other end receives. */
  lemma FreshCrossWired(links: seq<Link>, pt: seq<seq<nat>>, v: nat, p: nat)
    requires Proper(links, pt)
    requires v < |pt| && p < |pt[v]|
    ensures
      var pr := Peer(links, pt, v, p);
      CrossWired(FreshEndpoint(links, pt, v, p), FreshEndpoint(links, pt, pr.0, pr.1))
    ensures forall u, q :: 0 <= u < |pt| && 0 <= q < |pt[u]| ==>
      (FreshEndpoint(links, pt, u, q).sender == FreshEndpoint(links, pt, v, p).receiver
       <==> (u, q) == Peer(links, pt, v, p))
  {
    PortAtIsUnique(links, pt, v, p);
    var pr := Peer(links, pt, v, p);
    PortAtIsUnique(links, pt, pr.0, pr.1);
    forall u, q | 0 <= u < |pt| && 0 <= q < |pt[u]| &&
      FreshEndpoint(links, pt, u, q).sender == FreshEndpoint(links, pt, v, p).receiver
      ensures (u, q) == pr
    {
      PortAtIsUnique(links, pt, u, q);
    }
  }

  /** Distinct ports of a fresh network send on distinct channels. */
  lemma FreshSendersDistinct(links: seq<Link>, pt: seq<seq<nat>>, u1: nat, q1: nat, u2: nat, q2: nat)
    requires Proper(links, pt)
    requires u1 < |pt| && q1 < |pt[u1]| && u2 < |pt| && q2 < |pt[u2]|
    requires FreshEndpoint(links, pt, u1, q1).sender == FreshEndpoint(links, pt, u2, q2).sender
    ensures u1 == u2 && q1 == q2
  {
    PortAtIsUnique(links, pt, u1, q1);
    PortAtIsUnique(links, pt, u2, q2);
  }

  /*---------------------------------------------------------------------------
   * A second acquisition
   *-------------------------------------------------------------------------*/

  /** While re-acquiring on edges a run has already connected, edge `k`
      (not a self-loop) is empty and connected until its source re-acquires
      it, and then holds a freshly minted end while still connected. */
  ghost predicate RerunEdge(links: seq<Link>, pt: seq<seq<nat>>, edges: seq<Edge>, k: nat, v: nat, p: nat)
    requires PortTable(links, pt)
    requires k < |links| && |edges| == |links| && links[k].0 < |pt| && links[k].1 < |pt|
  {
    var s := links[k].0;
    var t := links[k].1;
    && s < t
    && !Before(t, PortAt(links, pt, k, t), v, p)
    && (if Before(s, PortAt(links, pt, k, s), v, p) then edges[k].channel.Some? && edges[k].connected
        else edges[k] == Edge(None, true))
  }

  lemma {:induction false} RerunPorts(links: seq<Link>, pt: seq<seq<nat>>, edges: seq<Edge>, k: nat, v: nat, p: nat)
    requires PortTable(links, pt) && InRange(pt, |links|)
    requires k < |links| && |edges| == |links| && links[k].0 < |pt| && links[k].1 < |pt|
    requires v < |pt| && p <= |pt[v]|
    requires RerunEdge(links, pt, edges, k, v, p)
    ensures
      var r := AcquirePorts(edges, pt[v], v, p);
      r.Fail? || RerunEdge(links, pt, r.value.0, k, v + 1, 0)
    decreases |pt[v]| - p
  {
    if p < |pt[v]| {
      var r1 := AcquireEndpoint(edges[pt[v][p]], v, p);
      PortAtIsUnique(links, pt, v, p);
      if r1.Ok? {
        var edges' := edges[pt[v][p] := r1.value.0];
        assert RerunEdge(links, pt, edges', k, v, p + 1);
        RerunPorts(links, pt, edges', k, v, p + 1);
      }
    }
  }

  lemma {:induction false} RerunNodes(links: seq<Link>, pt: seq<seq<nat>>, edges: seq<Edge>, k: nat, v: nat)
    requires PortTable(links, pt) && InRange(pt, |links|)
    requires k < |links| && |edges| == |links| && links[k].0 < |pt| && links[k].1 < |pt|
    requires v <= links[k].1
    requires RerunEdge(links, pt, edges, k, v, 0)
    ensures AcquireNodes(edges, pt, v).Fail?
    decreases |pt| - v
  {
    RerunPorts(links, pt, edges, k, v, 0);
    var r := AcquirePorts(edges, pt[v], v, 0);
    if r.Ok? {
      RerunNodes(links, pt, r.value.0, k, v + 1);
    }
  }

  /** Acquiring again, when some edge that is not a self-loop is empty and
      connected, as a first run leaves it, panics as soon as the second end
      of that edge is requested. */
  lemma SecondAcquisitionPanics(links: seq<Link>, pt: seq<seq<nat>>, edges: seq<Edge>)
    requires Normalized(links) && PortTable(links, pt) && InRange(pt, |links|)
    requires forall k :: 0 <= k < |links| ==> links[k].1 < |pt|
    requires |edges| == |links|
    requires exists k :: 0 <= k < |links| && links[k].0 != links[k].1 && edges[k] == Edge(None, true)
    ensures AcquireNodes(edges, pt, 0) == Fail(ThirdEndpoint)
  {
    var k :| 0 <= k < |links| && links[k].0 != links[k].1 && edges[k] == Edge(None, true);
    RerunNodes(links, pt, edges, k, 0);
  }

  /** While a first run acquires on default edges, edge `k` (not a
      self-loop) is untouched until its source acquires it, then holds a
      minted end and is not connected until its target takes that end, and
      is empty and connected from then on. */
  ghost predicate FirstEdge(links: seq<Link>, pt: seq<seq<nat>>, edges: seq<Edge>, k: nat, v: nat, p: nat)
    requires PortTable(links, pt)
    requires k < |links| && |edges| == |links| && links[k].0 < |pt| && links[k].1 < |pt|
  {
    var s := links[k].0;
    var t := links[k].1;
    && s < t
    && (if Before(t, PortAt(links, pt, k, t), v, p) then edges[k] == Edge(None, true)
        else if Before(s, PortAt(links, pt, k, s), v, p) then edges[k].channel.Some? && !edges[k].connected
        else edges[k] == DefaultEdge())
  }

  lemma {:induction false} FirstPorts(links: seq<Link>, pt: seq<seq<nat>>, edges: seq<Edge>, k: nat, v: nat, p: nat)
    requires PortTable(links, pt) && InRange(pt, |links|)
    requires k < |links| && |edges| == |links| && links[k].0 < |pt| && links[k].1 < |pt|
    requires v < |pt| && p <= |pt[v]|
    requires FirstEdge(links, pt, edges, k, v, p)
    ensures
      var r := AcquirePorts(edges, pt[v], v, p);
      r.Fail? || FirstEdge(links, pt, r.value.0, k, v + 1, 0)
    decreases |pt[v]| - p
  {
    if p < |pt[v]| {
      var r1 := AcquireEndpoint(edges[pt[v][p]], v, p);
      PortAtIsUnique(links, pt, v, p);
      if r1.Ok? {
        var edges' := edges[pt[v][p] := r1.value.0];
        assert FirstEdge(links, pt, edges', k, v, p + 1);
        FirstPorts(links, pt, edges', k, v, p + 1);
      }
    }
  }

  lemma {:induction false} FirstNodes(links: seq<Link>, pt: seq<seq<nat>>, edges: seq<Edge>, k: nat, v: nat)
    requires PortTable(links, pt) && InRange(pt, |links|)
    requires k < |links| && |edges| == |links| && links[k].0 < |pt| && links[k].1 < |pt|
    requires v <= |pt|
    requires FirstEdge(links, pt, edges, k, v, 0)
    ensures
      var r := AcquireNodes(edges, pt, v);
      r.Ok? ==> r.value.0[k] == Edge(None, true)
    decreases |pt| - v
  {
    if v < |pt| {
      FirstPorts(links, pt, edges, k, v, 0);
      var r1 := AcquirePorts(edges, pt[v], v, 0);
      if r1.Ok? {
        FirstNodes(links, pt, r1.value.0, k, v + 1);
        AcquireNodesStep(edges, pt, v);
      }
    } else {
      assert Before(links[k].1, PortAt(links, pt, k, links[k].1), v, 0);
    }
  }

  /** A first acquisition on default edges, self-loops or not, leaves every
      edge that is not a self-loop empty and connected. */
  lemma FirstAcquisitionConnects(links: seq<Link>, pt: seq<seq<nat>>)
    requires Normalized(links) && PortTable(links, pt) && InRange(pt, |links|)
    requires forall k :: 0 <= k < |links| ==> links[k].1 < |pt|
    ensures
      var r := AcquireNodes(DefaultEdges(|links|), pt, 0);
      r.Ok? ==> forall k :: 0 <= k < |links| && links[k].0 != links[k].1 ==> r.value.0[k] == Edge(None, true)
  {
    var d := DefaultEdges(|links|);
    forall k | 0 <= k < |links| && links[k].0 != links[k].1
      ensures AcquireNodes(d, pt, 0).Ok? ==> AcquireNodes(d, pt, 0).value.0[k] == Edge(None, true)
    {
      assert FirstEdge(links, pt, d, k, 0, 0);
      FirstNodes(links, pt, d, k, 0);
    }
  }

  /*---------------------------------------------------------------------------
   * One round's message exchange
   *-------------------------------------------------------------------------*/

  /** Ports `p..` of one node put their messages on their sender channels, in
      port order; `None` when a put finds its channel full. */
  function PostPorts<M>(slots: Slots<M>, eps: seq<Endpoint>, out: seq<M>, p: nat): Option<Slots<M>>
    requires |out| == |eps| && p <= |eps|
    decreases |eps| - p
  {
    if p == |eps| then Some(slots)
    else
      match Put(slots, eps[p].sender, out[p])
      case None => None
      case Some(slots') => PostPorts(slots', eps, out, p + 1)
  }

  /** One message per port of every node. */
  predicate Shaped<M>(chans: seq<seq<Endpoint>>, outs: seq<seq<M>>)
  {
    |outs| == |chans| && forall u :: 0 <= u < |chans| ==> |outs[u]| == |chans[u]|
  }

  /** Nodes `v..` post their messages, node by node. */
  function PostNodes<M>(slots: Slots<M>, chans: seq<seq<Endpoint>>, outs: seq<seq<M>>, v: nat): Option<Slots<M>>
    requires Shaped(chans, outs) && v <= |chans|
    decreases |chans| - v
  {
    if v == |chans| then Some(slots)
    else
      match PostPorts(slots, chans[v], outs[v], 0)
      case None => None
      case Some(slots') => PostNodes(slots', chans, outs, v + 1)
  }

  /** A node takes one message from each of its receiver channels, in port
      order; `None` when one of them is empty, so that the receive would wait
      until the deadline. Every channel has a single receiving end, so the
      order in which the nodes take their messages does not matter. */
  function Inbox<M>(slots: Slots<M>, eps: seq<Endpoint>): (r: Option<seq<M>>)
    ensures r.Some? <==> forall p :: 0 <= p < |eps| ==> eps[p].receiver in slots
    ensures r.Some? ==> |r.value| == |eps|
    ensures r.Some? ==> forall p :: 0 <= p < |eps| ==> r.value[p] == slots[eps[p].receiver]
  {
    if forall p :: 0 <= p < |eps| ==> eps[p].receiver in slots
    then Some(seq(|eps|, p requires 0 <= p < |eps| => slots[eps[p].receiver]))
    else None
  }

  /** One round's exchange: every node sends `outs[v][p]` on port `p`, then
      every node receives one message per port. `None` when some send or
      receive would block. */
  function Exchange<M>(chans: seq<seq<Endpoint>>, outs: seq<seq<M>>): (r: Option<seq<seq<M>>>)
    requires Shaped(chans, outs)
    ensures r.Some? ==> Shaped(chans, r.value)
  {
    match PostNodes(map[], chans, outs, 0)
    case None => None
    case Some(slots) =>
      if forall v :: 0 <= v < |chans| ==> Inbox(slots, chans[v]).Some?
      then Some(seq(|chans|, v requires 0 <= v < |chans| => Inbox(slots, chans[v]).value))
      else None
  }

  /** No two ports, of the same node or of different nodes, send on the same
      channel. */
  predicate SendersDistinct(chans: seq<seq<Endpoint>>)
  {
    forall u1, q1, u2, q2 ::
      && 0 <= u1 < |chans| && 0 <= q1 < |chans[u1]| && 0 <= u2 < |chans| && 0 <= q2 < |chans[u2]|
      && chans[u1][q1].sender == chans[u2][q2].sender
      ==> u1 == u2 && q1 == q2
  }

  /** Port `q` of node `u` exists. */
  predicate IsPort(chans: seq<seq<Endpoint>>, u: int, q: int)
  {
    0 <= u < |chans| && 0 <= q < |chans[u]|
  }

  /** The slots hold the messages of the ports before port `p` of node `v`,
      each on its sender channel, and nothing on the sender channels of the
      ports still to post. */
  ghost predicate PostedBefore<M>(chans: seq<seq<Endpoint>>, outs: seq<seq<M>>, slots: Slots<M>, v: nat, p: nat)
    requires Shaped(chans, outs)
  {
    forall u, q :: IsPort(chans, u, q) ==>
      if Before(u, q, v, p) then chans[u][q].sender in slots && slots[chans[u][q].sender] == outs[u][q]
      else chans[u][q].sender !in slots
  }

  lemma {:induction false} PostPortsSucceeds<M>(chans: seq<seq<Endpoint>>, outs: seq<seq<M>>, slots: Slots<M>, v: nat, p: nat)
    requires Shaped(chans, outs) && SendersDistinct(chans)
    requires v < |chans| && p <= |chans[v]|
    requires PostedBefore(chans, outs, slots, v, p)
    ensures
      var r := PostPorts(slots, chans[v], outs[v], p);
      r.Some? && PostedBefore(chans, outs, r.value, v + 1, 0)
    decreases |chans[v]| - p
  {
    if p == |chans[v]| {
      assert forall u, q :: IsPort(chans, u, q) ==> (Before(u, q, v, p) <==> Before(u, q, v + 1, 0));
    } else {
      var c := chans[v][p].sender;
      assert IsPort(chans, v, p);
      var slots' := slots[c := outs[v][p]];
      forall u, q | IsPort(chans, u, q)
        ensures if Before(u, q, v, p + 1) then chans[u][q].sender in slots' && slots'[chans[u][q].sender] == outs[u][q]
                else chans[u][q].sender !in slots'
      {
        if (u, q) != (v, p) {
          assert chans[u][q].sender != c;
        }
      }
      PostPortsSucceeds(chans, outs, slots', v, p + 1);
    }
  }

  lemma {:induction false} PostNodesSucceeds<M>(chans: seq<seq<Endpoint>>, outs: seq<seq<M>>, slots: Slots<M>, v: nat)
    requires Shaped(chans, outs) && SendersDistinct(chans)
    requires v <= |chans|
    requires PostedBefore(chans, outs, slots, v, 0)
    ensures
      var r := PostNodes(slots, chans, outs, v);
      r.Some? && PostedBefore(chans, outs, r.value, |chans|, 0)
    decreases |chans| - v
  {
    if v < |chans| {
      PostPortsSucceeds(chans, outs, slots, v, 0);
      PostNodesSucceeds(chans, outs, PostPorts(slots, chans[v], outs[v], 0).value, v + 1);
    }
  }

  /** The channels some port sends on. */
  ghost function Senders(chans: seq<seq<Endpoint>>): set<ChannelId>
  {
    set u, q | 0 <= u < |chans| && 0 <= q < |chans[u]| :: chans[u][q].sender
  }

  /** Posting fills only sender channels. */
  lemma {:induction false} PostPortsKeys<M>(chans: seq<seq<Endpoint>>, outs: seq<seq<M>>, slots: Slots<M>, v: nat, p: nat)
    requires Shaped(chans, outs) && v < |chans| && p <= |chans[v]|
    ensures
      var r := PostPorts(slots, chans[v], outs[v], p);
      r.Some? ==> r.value.Keys <= slots.Keys + Senders(chans)
    decreases |chans[v]| - p
  {
    if p < |chans[v]| {
      assert IsPort(chans, v, p);
      assert chans[v][p].sender in Senders(chans);
      match Put(slots, chans[v][p].sender, outs[v][p])
      case None =>
      case Some(slots') => PostPortsKeys(chans, outs, slots', v, p + 1);
    }
  }

  lemma {:induction false} PostNodesKeys<M>(chans: seq<seq<Endpoint>>, outs: seq<seq<M>>, slots: Slots<M>, v: nat)
    requires Shaped(chans, outs) && v <= |chans|
    ensures
      var r := PostNodes(slots, chans, outs, v);
      r.Some? ==> r.value.Keys <= slots.Keys + Senders(chans)
    decreases |chans| - v
  {
    if v < |chans| {
      PostPortsKeys(chans, outs, slots, v, 0);
      match PostPorts(slots, chans[v], outs[v], 0)
      case None =>
      case Some(slots') => PostNodesKeys(chans, outs, slots', v + 1);
    }
  }

  /** After a complete posting, the slots hold every port's message on its
      sender channel and nothing else. */
  lemma AllPosted<M>(chans: seq<seq<Endpoint>>, outs: seq<seq<M>>)
    requires Shaped(chans, outs) && SendersDistinct(chans)
    ensures PostNodes(map[], chans, outs, 0).Some?
    ensures var slots := PostNodes(map[], chans, outs, 0).value;
      && slots.Keys <= Senders(chans)
      && forall u, q :: IsPort(chans, u, q) ==> chans[u][q].sender in slots && slots[chans[u][q].sender] == outs[u][q]
  {
    PostNodesSucceeds(chans, outs, map[], 0);
    PostNodesKeys(chans, outs, map[], 0);
    var slots := PostNodes(map[], chans, outs, 0).value;
    forall u, q | IsPort(chans, u, q)
      ensures chans[u][q].sender in slots && slots[chans[u][q].sender] == outs[u][q]
    {
      assert Before(u, q, |chans|, 0);
    }
  }

  /** Some port sends on the channel port `p` of node `v` receives on. */
  ghost predicate Fed(chans: seq<seq<Endpoint>>, v: int, p: int)
    requires IsPort(chans, v, p)
  {
    exists u, q :: IsPort(chans, u, q) && chans[u][q].sender == chans[v][p].receiver
  }

  /** Every port is fed: each receiver channel is some port's sender channel. */
  ghost predicate AllFed(chans: seq<seq<Endpoint>>)
  {
    forall v, p :: IsPort(chans, v, p) ==> Fed(chans, v, p)
  }

  lemma ExchangeStallsUnlessFed<M>(chans: seq<seq<Endpoint>>, outs: seq<seq<M>>)
    requires Shaped(chans, outs) && SendersDistinct(chans)
    requires Exchange(chans, outs).Some?
    ensures AllFed(chans)
  {
    AllPosted(chans, outs);
    var slots := PostNodes(map[], chans, outs, 0).value;
    forall v, p | IsPort(chans, v, p) ensures Fed(chans, v, p) {
      assert Inbox(slots, chans[v]).Some?;
      var c := chans[v][p].receiver;
      assert c in slots;
      assert c in Senders(chans);
      var u, q :| 0 <= u < |chans| && 0 <= q < |chans[u]| && chans[u][q].sender == c;
      assert IsPort(chans, u, q);
    }
  }

  lemma FedExchangeCompletes<M>(chans: seq<seq<Endpoint>>, outs: seq<seq<M>>)
    requires Shaped(chans, outs) && SendersDistinct(chans)
    requires AllFed(chans)
    ensures Exchange(chans, outs).Some?
    ensures forall v, p, u, q :: IsPort(chans, v, p) && IsPort(chans, u, q) && chans[u][q].sender == chans[v][p].receiver ==>
      Exchange(chans, outs).value[v][p] == outs[u][q]
  {
    AllPosted(chans, outs);
    var slots := PostNodes(map[], chans, outs, 0).value;
    forall v | 0 <= v < |chans| ensures Inbox(slots, chans[v]).Some? {
      forall p | 0 <= p < |chans[v]| ensures chans[v][p].receiver in slots {
        assert IsPort(chans, v, p) && Fed(chans, v, p);
      }
    }
  }

  /** When no two ports share a sender channel, no send blocks; a round
      completes exactly when every port is fed by some port's sender
      channel, and each port then receives what was sent on that channel. */
  lemma ExchangeDelivers<M>(chans: seq<seq<Endpoint>>, outs: seq<seq<M>>)
    requires Shaped(chans, outs) && SendersDistinct(chans)
    ensures Exchange(chans, outs).Some? <==> AllFed(chans)
    ensures Exchange(chans, outs).Some? ==>
      forall v, p, u, q :: IsPort(chans, v, p) && IsPort(chans, u, q) && chans[u][q].sender == chans[v][p].receiver ==>
        Exchange(chans, outs).value[v][p] == outs[u][q]
  {
    if Exchange(chans, outs).Some? {
      ExchangeStallsUnlessFed(chans, outs);
    }
    if AllFed(chans) {
      FedExchangeCompletes(chans, outs);
    }
  }

  /** The per-node endpoint lists of a fresh network after acquisition. */
  ghost predicate FreshChannels(links: seq<Link>, pt: seq<seq<nat>>, chans: seq<seq<Endpoint>>)
    requires Proper(links, pt)
  {
    chans == FreshTable(links, pt)
  }

  /** No two ports of a fresh network send on the same channel. */
  lemma FreshSendersAreDistinct(links: seq<Link>, pt: seq<seq<nat>>, chans: seq<seq<Endpoint>>)
    requires Proper(links, pt) && FreshChannels(links, pt, chans)
    ensures SendersDistinct(chans)
  {
    forall u1, q1, u2, q2 | IsPort(chans, u1, q1) && IsPort(chans, u2, q2) && chans[u1][q1].sender == chans[u2][q2].sender
      ensures u1 == u2 && q1 == q2
    {
      FreshSendersDistinct(links, pt, u1, q1, u2, q2);
    }
  }

  /** Every port of a fresh network is fed by its peer's sender channel. */
  lemma FreshPortsAreFed(links: seq<Link>, pt: seq<seq<nat>>, chans: seq<seq<Endpoint>>)
    requires Proper(links, pt) && FreshChannels(links, pt, chans)
    ensures forall v, p :: IsPort(chans, v, p) ==>
      var pr := Peer(links, pt, v, p);
      IsPort(chans, pr.0, pr.1) && chans[pr.0][pr.1].sender == chans[v][p].receiver
    ensures AllFed(chans)
  {
    forall v, p | IsPort(chans, v, p)
      ensures var pr := Peer(links, pt, v, p);
        IsPort(chans, pr.0, pr.1) && chans[pr.0][pr.1].sender == chans[v][p].receiver
    {
      FreshCrossWired(links, pt, v, p);
    }
  }

  /** On a fresh network without self-loops, no send or receive of a round
      blocks, and port `p` of every node `v` receives exactly the message its
      peer sent on the peer's port of the same edge. */
  lemma FreshExchange<M>(links: seq<Link>, pt: seq<seq<nat>>, chans: seq<seq<Endpoint>>, outs: seq<seq<M>>)
    requires Proper(links, pt) && FreshChannels(links, pt, chans) && Shaped(chans, outs)
    ensures
      var r := Exchange(chans, outs);
      && r.Some?
      && forall v, p :: 0 <= v < |pt| && 0 <= p < |pt[v]| ==>
           var pr := Peer(links, pt, v, p);
           r.value[v][p] == outs[pr.0][pr.1]
  {
    FreshExchangeCompletes(links, pt, chans, outs);
    forall v, p | 0 <= v < |pt| && 0 <= p < |pt[v]|
      ensures var pr := Peer(links, pt, v, p);
        Exchange(chans, outs).value[v][p] == outs[pr.0][pr.1]
    {
      FreshDeliveredAt(links, pt, chans, outs, v, p);
    }
  }

  /** On a fresh network without self-loops, senders are distinct and a
      round's exchange completes. */
  lemma FreshExchangeCompletes<M>(links: seq<Link>, pt: seq<seq<nat>>, chans: seq<seq<Endpoint>>, outs: seq<seq<M>>)
    requires Proper(links, pt) && FreshChannels(links, pt, chans) && Shaped(chans, outs)
    ensures SendersDistinct(chans) && Exchange(chans, outs).Some?
  {
    FreshSendersAreDistinct(links, pt, chans);
    FreshPortsAreFed(links, pt, chans);
    FedExchangeCompletes(chans, outs);
  }

  /** On a fresh network, port `p` of node `v` receives what its peer sent. */
  lemma FreshDeliveredAt<M>(links: seq<Link>, pt: seq<seq<nat>>, chans: seq<seq<Endpoint>>, outs: seq<seq<M>>, v: nat, p: nat)
    requires Proper(links, pt) && FreshChannels(links, pt, chans) && Shaped(chans, outs)
    requires SendersDistinct(chans) && Exchange(chans, outs).Some?
    requires v < |pt| && p < |pt[v]|
    ensures
      var pr := Peer(links, pt, v, p);
      && pr.0 < |outs| && pr.1 < |outs[pr.0]|
      && Exchange(chans, outs).value[v][p] == outs[pr.0][pr.1]
  {
    var pr := Peer(links, pt, v, p);
    FreshCrossWired(links, pt, v, p);
    assert |chans[v]| == |FreshPorts(links, pt, v)| == |pt[v]|;
    assert |chans[pr.0]| == |FreshPorts(links, pt, pr.0)| == |pt[pr.0]|;
    DeliveredFrom(chans, outs, v, p, pr.0, pr.1);
  }

  /** The message a port receives is the one sent by the port whose sender
      channel feeds it. */
  lemma DeliveredFrom<M>(chans: seq<seq<Endpoint>>, outs: seq<seq<M>>, v: nat, p: nat, u: nat, q: nat)
    requires Shaped(chans, outs) && SendersDistinct(chans) && Exchange(chans, outs).Some?
    requires IsPort(chans, v, p) && IsPort(chans, u, q) && chans[u][q].sender == chans[v][p].receiver
    ensures Exchange(chans, outs).value[v][p] == outs[u][q]
  {
    ExchangeDelivers(chans, outs);
  }
}
