/** `Mvc3approx`: the minimum vertex cover 3-approximation. Every node runs
    two copies of the bipartite matching algorithm at once: `s1` in the White
    role and `s2` in the Black role. The copies are cross-wired through the
    network: a node's White copy talks to its neighbours' Black copies and
    its Black copy to their White copies. This is a matching in the bipartite
    double cover of the network. A node is in the cover when either copy
    ends matched. */
module Mvc {
  import opened Types
  import opened Graph
  import Bipartite
  import Simulator

  /** The two copies: `s1` plays White, `s2` plays Black. */
  datatype MvcState = MvcState(s1: Bipartite.BpState, s2: Bipartite.BpState)

  /** A message for the receiver's White copy (`m1`) and for its Black copy
      (`m2`). */
  datatype MvcMessage = MvcMessage(m1: Bipartite.BpMessage, m2: Bipartite.BpMessage)

  /** `init`: the White copy is initialised as node 0 and the Black copy as
      node 1; both see the node's real degree and node count. */
  function Init(info: Input): (s: MvcState)
    ensures s.s1.color == Bipartite.White && s.s2.color == Bipartite.Black
    ensures s.s1.degree == info.nodeDegree && s.s2.degree == info.nodeDegree
  {
    MvcState(Bipartite.Init(info.(nodeId := 0)), Bipartite.Init(info.(nodeId := 1)))
  }

  /** `is_output`: both copies have stopped. */
  predicate IsOutput(s: MvcState)
  {
    Bipartite.IsOutput(s.s1) && Bipartite.IsOutput(s.s2)
  }

  /** The node's printed result: 1 when it is in the cover, that is, when
      either copy is matched. */
  function Cover(s: MvcState): (bit: nat)
    ensures bit <= 1
  {
    if Bipartite.IsMatched(s.s1) || Bipartite.IsMatched(s.s2) then 1 else 0
  }

  /** The derived `PartialEq`: both copies compare equal. */
  predicate Same(s: MvcState, t: MvcState)
  {
    Bipartite.Same(s.s1, t.s1) && Bipartite.Same(s.s2, t.s2)
  }

  /** `send`: port p carries the Black copy's message to the neighbour's
      White copy, and the White copy's message to its Black copy. A White
      copy therefore only ever hears `Accept` or `Noop`, and a Black copy
      never hears `Accept`. */
  function Send(s: MvcState, p: nat): (m: MvcMessage)
    ensures s.s2.color == Bipartite.Black ==> m.m1 == Bipartite.Accept || m.m1 == Bipartite.Noop
    ensures s.s1.color == Bipartite.White ==> m.m2 != Bipartite.Accept
  {
    MvcMessage(Bipartite.Send(s.s2, p), Bipartite.Send(s.s1, p))
  }

  /** The messages for the White copy, in port order. */
  function Firsts(msgs: seq<MvcMessage>): (ms: seq<Bipartite.BpMessage>)
    ensures |ms| == |msgs| && forall p :: 0 <= p < |msgs| ==> ms[p] == msgs[p].m1
  {
    seq(|msgs|, p requires 0 <= p < |msgs| => msgs[p].m1)
  }

  /** The messages for the Black copy, in port order. */
  function Seconds(msgs: seq<MvcMessage>): (ms: seq<Bipartite.BpMessage>)
    ensures |ms| == |msgs| && forall p :: 0 <= p < |msgs| ==> ms[p] == msgs[p].m2
  {
    seq(|msgs|, p requires 0 <= p < |msgs| => msgs[p].m2)
  }

  /** `receive`: each copy receives its own halves of the messages, and
      both copies advance by one round in step. */
  function Receive(s: MvcState, msgs: seq<MvcMessage>): (r: MvcState)
    ensures r.s1.round == s.s1.round + 1 && r.s2.round == s.s2.round + 1
    ensures r.s1.color == s.s1.color && r.s2.color == s.s2.color
    ensures r.s1.degree == s.s1.degree && r.s2.degree == s.s2.degree
  {
    MvcState(Bipartite.Receive(s.s1, Firsts(msgs)), Bipartite.Receive(s.s2, Seconds(msgs)))
  }

  /** The algorithm, as the simulator runs it. */
  function Mvc(): Algorithm<MvcState, MvcMessage>
  {
    Algorithm(Init, Send, Receive, IsOutput, Same)
  }

  /** A node receiving one inbox after another. */
  function Receives(s: MvcState, inboxes: seq<seq<MvcMessage>>): (r: MvcState)
    decreases |inboxes|
  {
    if |inboxes| == 0 then s else Receives(Receive(s, inboxes[0]), inboxes[1..])
  }

  /** The White copy's inboxes of a sequence of inboxes. */
  function WhiteInboxes(inboxes: seq<seq<MvcMessage>>): (ws: seq<seq<Bipartite.BpMessage>>)
    ensures |ws| == |inboxes| && forall k :: 0 <= k < |inboxes| ==> ws[k] == Firsts(inboxes[k])
  {
    seq(|inboxes|, k requires 0 <= k < |inboxes| => Firsts(inboxes[k]))
  }

  /*---------------------------------------------------------------------------
   * Properties
   *-------------------------------------------------------------------------*/

  /** Whatever the node's id, its first copy starts as a White node and its
      second as a Black node waiting on every port, both with the node's
      degree, in round 0 and unmatched. */
  lemma InitRoles(info: Input)
    ensures var s := Init(info);
      && s.s1.color == Bipartite.White && s.s2.color == Bipartite.Black
      && s.s1.degree == info.nodeDegree && s.s2.degree == info.nodeDegree
      && s.s1.round == 0 && s.s2.round == 0
      && s.s1.matching == Bipartite.Ur && s.s2.matching == Bipartite.Ur
      && s.s2.xSet == Bipartite.AllPorts(info.nodeDegree)
  {
  }

  /** The cross wiring: when every port of a node carries what a neighbour
      sent on its own port, the node's White copy receives what the
      neighbours' Black copies sent, and its Black copy what their White
      copies sent. */
  lemma CrossWiring(s: MvcState, senders: seq<MvcState>, ports: seq<nat>)
    requires |senders| == |ports|
    ensures
      var msgs := seq(|senders|, k requires 0 <= k < |senders| => Send(senders[k], ports[k]));
      var r := Receive(s, msgs);
      && r.s1 == Bipartite.Receive(s.s1, seq(|senders|, k requires 0 <= k < |senders| => Bipartite.Send(senders[k].s2, ports[k])))
      && r.s2 == Bipartite.Receive(s.s2, seq(|senders|, k requires 0 <= k < |senders| => Bipartite.Send(senders[k].s1, ports[k])))
  {
    var msgs := seq(|senders|, k requires 0 <= k < |senders| => Send(senders[k], ports[k]));
    assert Firsts(msgs) == seq(|senders|, k requires 0 <= k < |senders| => Bipartite.Send(senders[k].s2, ports[k]));
    assert Seconds(msgs) == seq(|senders|, k requires 0 <= k < |senders| => Bipartite.Send(senders[k].s1, ports[k]));
  }

  /** Equal states print the same cover bit, and a stopped node is in the
      cover exactly when one of its copies ended matched. */
  lemma SameCover(s: MvcState, t: MvcState)
    requires Same(s, t)
    ensures Cover(s) == Cover(t)
    ensures IsOutput(s) ==> (Cover(s) == 1 <==> s.s1.matching.Ms? || s.s2.matching.Ms?)
  {
  }

  /** The White copy of a sequence of receives is the White copy's own
      sequence of receives. */
  lemma {:induction false} WhiteCopyReceives(s: MvcState, inboxes: seq<seq<MvcMessage>>)
    ensures Receives(s, inboxes).s1 == Bipartite.Receives(s.s1, WhiteInboxes(inboxes))
    decreases |inboxes|
  {
    if |inboxes| > 0 {
      WhiteCopyReceives(Receive(s, inboxes[0]), inboxes[1..]);
      assert WhiteInboxes(inboxes)[1..] == WhiteInboxes(inboxes[1..]);
    }
  }

  /** A node's White copy stops within 2 * degree + 1 rounds, whatever its
      neighbours send. */
  lemma WhiteCopyStops(info: Input, inboxes: seq<seq<MvcMessage>>)
    requires |inboxes| >= 2 * info.nodeDegree + 1
    ensures Bipartite.IsOutput(Receives(Init(info), inboxes).s1)
  {
    WhiteCopyReceives(Init(info), inboxes);
    Bipartite.WhiteStopsWithinDegree(info.(nodeId := 0), WhiteInboxes(inboxes));
  }

  /** Both copies are absorbing once stopped, so the pair is too: the
      simulator's post-stop check never fails for this algorithm. */
  lemma MvcIsPostStopSafe()
    ensures PostStopSafe(Mvc()) && OutputRespectsSame(Mvc())
  {
    var alg := Mvc();
    forall s, t, msgs | alg.isOutput(t) && alg.same(s, t)
      ensures alg.same(alg.receive(s, msgs), t)
    {
      Bipartite.StoppedIsAbsorbing(s.s1, Firsts(msgs));
      Bipartite.StoppedIsAbsorbing(s.s2, Seconds(msgs));
    }
  }

  /** On a network without self-loops, a run of the algorithm never panics,
      and a run that ends with every node stopped is successful. */
  lemma MvcRunsSafely(es: seq<(NodeId, NodeId)>, roundLimit: nat, budget: nat)
    requires Simulator.FromNetwork(Mvc(), es).Ok? && LoopFree(es)
    ensures var r := Simulator.Run(Mvc(), Simulator.FromNetwork(Mvc(), es).value, roundLimit, budget);
      && r.Ok?
      && (r.value.1.exit == Simulator.AllStopped ==> r.value.1.successful)
  {
    var sim := Simulator.FromNetwork(Mvc(), es).value;
    MvcIsPostStopSafe();
    Simulator.SafeFreshRunSucceeds(Mvc(), es, roundLimit, budget);
    Simulator.AllStoppedRunSucceeds(Mvc(), sim, roundLimit, budget);
  }
}
