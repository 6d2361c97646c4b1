/** `BipartiteMaximalMatching`: maximal matching in a two-coloured network
    in the port-numbering model. Nodes with an even id are White, nodes with
    an odd id Black. A White node proposes to its neighbours one port at a
    time on even rounds. A Black node collects proposals and, on the next
    odd round, accepts the one on its smallest port. A matched White node
    announces the match on the following even round, so that Black
    neighbours stop waiting for it. */
module Bipartite {
  import opened Types
  import opened Graph
  import Simulator

  datatype Color = White | Black

  /** The colour of a node id: even ids are White, odd ids Black. */
  function ColorOf(id: nat): Color
  {
    if id % 2 == 0 then White else Black
  }

  /** The four matching states: unmatched or matched over a port, and
      running or stopped. */
  datatype Matching =
    | Ur           // unmatched and running
    | Mr(port: nat) // matched over `port` and running
    | Us           // unmatched and stopped
    | Ms(port: nat) // matched over `port` and stopped

  /** A node's state. `mSet` holds the ports a Black node received a
      proposal on; `xSet` holds the ports of a Black node whose neighbours
      may still propose. */
  datatype BpState = BpState(degree: nat, color: Color, round: nat, matching: Matching,
                             mSet: set<nat>, xSet: set<nat>)

  datatype BpMessage = Noop | Proposal | Accept | Matched

  /** The ports `0 .. n-1`. */
  function AllPorts(n: nat): (ports: set<nat>)
    ensures forall p: nat :: p in ports <==> p < n
  {
    if n == 0 then {} else AllPorts(n - 1) + {n - 1}
  }

  /** `init`: round 0, unmatched and running, no proposals. A Black node
      waits on every port. */
  function Init(info: Input): (s: BpState)
    ensures s.round == 0 && s.matching == Ur && s.mSet == {} && s.degree == info.nodeDegree
    ensures s.color == ColorOf(info.nodeId)
    ensures s.xSet == (if s.color == White then {} else AllPorts(info.nodeDegree))
  {
    var color := ColorOf(info.nodeId);
    BpState(info.nodeDegree, color, 0, Ur, {}, if color == White then {} else AllPorts(info.nodeDegree))
  }

  /** A stopped node: the result is final. */
  predicate IsOutput(s: BpState)
  {
    s.matching.Us? || s.matching.Ms?
  }

  /** `matched`: stopped and matched. */
  predicate IsMatched(s: BpState)
  {
    s.matching.Ms?
  }

  /** `PartialEq`: two states are equal when their matching states are. */
  predicate Same(s: BpState, t: BpState)
  {
    s.matching == t.matching
  }

  /** A set of ports with an element at most k has a least element. */
  lemma {:induction false} HasMinBelow(s: set<nat>, k: nat)
    requires exists x :: x in s && x <= k
    ensures exists m :: m in s && forall x :: x in s ==> m <= x
    decreases k
  {
    if exists x :: x in s && x < k {
      HasMinBelow(s, k - 1);
    } else {
      assert k in s && forall x :: x in s ==> k <= x;
    }
  }

  /** The least port of a non-empty set (`iter().min().unwrap()`). */
  function SetMin(s: set<nat>): (m: nat)
    requires s != {}
    ensures m in s && forall x :: x in s ==> m <= x
  {
    var y :| y in s;
    HasMinBelow(s, y);
    var m :| m in s && forall x :: x in s ==> m <= x;
    m
  }

  /** A White node's proposing turn: unmatched on an even round 2k with
      k below its degree. */
  predicate Proposing(s: BpState)
  {
    s.color == White && s.matching == Ur && s.round % 2 == 0 && s.round / 2 < s.degree
  }

  /** A Black node's accepting turn: unmatched on an odd round with a
      proposal. */
  predicate Accepting(s: BpState)
  {
    s.color == Black && s.matching == Ur && s.round % 2 != 0 && s.mSet != {}
  }

  /** `send`, position `p` of the message stream. */
  function Send(s: BpState, p: nat): (m: BpMessage)
    ensures m == Proposal ==> Proposing(s) && p == s.round / 2
    ensures m == Accept ==> Accepting(s) && p == SetMin(s.mSet)
  {
    if Proposing(s) then
      (if p == s.round / 2 then Proposal else Noop)
    else if s.color == White && s.matching.Mr? && s.round % 2 == 0 then
      Matched
    else if Accepting(s) then
      (if p == SetMin(s.mSet) then Accept else Noop)
    else
      Noop
  }

  /** The first port carrying `Accept`, at or after `from`. */
  function FirstAccept(msgs: seq<BpMessage>, from: nat): (r: Option<nat>)
    requires from <= |msgs|
    ensures r.Some? ==> from <= r.value < |msgs| && msgs[r.value] == Accept
                        && forall j :: from <= j < r.value ==> msgs[j] != Accept
    ensures r.None? ==> forall j :: from <= j < |msgs| ==> msgs[j] != Accept
    decreases |msgs| - from
  {
    if from == |msgs| then None
    else if msgs[from] == Accept then Some(from)
    else FirstAccept(msgs, from + 1)
  }

  /** The ports at or after `from` that carry a message of the given kind. */
  function PortsWith(msgs: seq<BpMessage>, kind: BpMessage, from: nat): (ports: set<nat>)
    ensures forall j :: j in ports <==> from <= j < |msgs| && msgs[j] == kind
  {
    set j: nat | from <= j < |msgs| && msgs[j] == kind
  }

  /** A Black node's bookkeeping on an even round, port by port from
      `from`: a `Matched` port leaves `x`, a `Proposal` port joins `m`. */
  function Tally(msgs: seq<BpMessage>, from: nat, x: set<nat>, m: set<nat>): (r: (set<nat>, set<nat>))
    requires from <= |msgs|
    ensures r.0 == x - PortsWith(msgs, Matched, from)
    ensures r.1 == m + PortsWith(msgs, Proposal, from)
    decreases |msgs| - from
  {
    if from == |msgs| then (x, m)
    else if msgs[from] == Matched then
      assert PortsWith(msgs, Matched, from) == PortsWith(msgs, Matched, from + 1) + {from};
      Tally(msgs, from + 1, x - {from}, m)
    else if msgs[from] == Proposal then
      assert PortsWith(msgs, Proposal, from) == PortsWith(msgs, Proposal, from + 1) + {from};
      Tally(msgs, from + 1, x, m + {from})
    else
      assert PortsWith(msgs, Matched, from) == PortsWith(msgs, Matched, from + 1);
      assert PortsWith(msgs, Proposal, from) == PortsWith(msgs, Proposal, from + 1);
      Tally(msgs, from + 1, x, m)
  }

  /** `receive`: the round advances, and the first matching case of the
      negotiation updates the state. */
  function Receive(s: BpState, msgs: seq<BpMessage>): (r: BpState)
    ensures r.round == s.round + 1 && r.degree == s.degree && r.color == s.color
  {
    var next := s.(round := s.round + 1);
    var accepted := FirstAccept(msgs, 0);
    if s.color == White && s.matching == Ur && s.round % 2 == 0 && s.round / 2 + 1 > s.degree then
      next.(matching := Us)
    else if s.color == White && s.matching.Mr? && s.round % 2 == 0 then
      next.(matching := Ms(s.matching.port))
    else if s.color == White && s.matching == Ur && s.round % 2 != 0 && accepted.Some? then
      next.(matching := Mr(accepted.value))
    else if Accepting(s) then
      next.(matching := Ms(SetMin(s.mSet)))
    else if s.color == Black && s.matching == Ur && s.round % 2 != 0 && s.xSet == {} then
      next.(matching := Us)
    else if s.color == Black && s.matching == Ur && s.round % 2 == 0 then
      var (x, m) := Tally(msgs, 0, s.xSet, s.mSet);
      next.(xSet := x, mSet := m)
    else
      next
  }

  /** The algorithm, as the simulator runs it. */
  function Bipartite(): Algorithm<BpState, BpMessage>
  {
    Algorithm(Init, Send, Receive, IsOutput, Same)
  }

  /** A node receiving one inbox after another. */
  function Receives(s: BpState, inboxes: seq<seq<BpMessage>>): (r: BpState)
    ensures r.round == s.round + |inboxes| && r.degree == s.degree && r.color == s.color
    decreases |inboxes|
  {
    if |inboxes| == 0 then s else Receives(Receive(s, inboxes[0]), inboxes[1..])
  }

  /*---------------------------------------------------------------------------
   * Sending
   *-------------------------------------------------------------------------*/

  /** Which messages a node sends: a proposal only on port k of round 2k,
      an acceptance only on its smallest proposing port, `Matched` on every
      port of the even round after a White node was accepted, and `Noop`
      everywhere else. */
  lemma SendKinds(s: BpState, p: nat)
    ensures Send(s, p) == Proposal <==> Proposing(s) && p == s.round / 2
    ensures Send(s, p) == Accept <==> Accepting(s) && p == SetMin(s.mSet)
    ensures Send(s, p) == Matched <==> s.color == White && s.matching.Mr? && s.round % 2 == 0
    ensures !IsOutput(s) || Send(s, p) == Noop
  {
  }

  /** A White node that started unmatched and is still unmatched after 2k
      rounds, with k below its degree, proposes on port k and only there. */
  lemma WhiteProposesInTurn(info: Input, inboxes: seq<seq<BpMessage>>, k: nat, p: nat)
    requires info.nodeId % 2 == 0 && |inboxes| == 2 * k && k < info.nodeDegree
    requires Receives(Init(info), inboxes).matching == Ur
    ensures Send(Receives(Init(info), inboxes), p) == Proposal <==> p == k
  {
  }

  /*---------------------------------------------------------------------------
   * Receiving
   *-------------------------------------------------------------------------*/

  /** Stopped states are absorbing: receiving leaves the matching state and
      both port sets alone. */
  lemma StoppedIsAbsorbing(s: BpState, msgs: seq<BpMessage>)
    requires IsOutput(s)
    ensures var r := Receive(s, msgs); r.matching == s.matching && r.mSet == s.mSet && r.xSet == s.xSet
  {
  }

  /** A White node takes the first port carrying `Accept` on an odd round,
      and stays unmatched when no port carries one. */
  lemma WhiteTakesFirstAccept(s: BpState, msgs: seq<BpMessage>, i: nat)
    requires s.color == White && s.matching == Ur && s.round % 2 != 0
    ensures Receive(s, msgs).matching == Mr(i) <==>
              i < |msgs| && msgs[i] == Accept && forall j :: 0 <= j < i ==> msgs[j] != Accept
    ensures Receive(s, msgs).matching == Ur <==> forall j :: 0 <= j < |msgs| ==> msgs[j] != Accept
  {
  }

  /** A White node matched over port i on an odd round stops matched over
      port i on the next, even, round; an unmatched White node whose
      proposing turns are over stops unmatched. */
  lemma WhiteStops(s: BpState, msgs: seq<BpMessage>)
    requires s.color == White && s.round % 2 == 0
    ensures s.matching.Mr? ==> Receive(s, msgs).matching == Ms(s.matching.port)
    ensures s.matching == Ur ==> (Receive(s, msgs).matching == Us <==> s.round / 2 >= s.degree)
  {
  }

  /** A Black node accepts on port p exactly when it stops matched over p:
      the accepted port and the matched port are the same. */
  lemma AcceptIsMatchedPort(s: BpState, msgs: seq<BpMessage>, p: nat)
    requires s.color == Black && s.matching == Ur && s.round % 2 != 0
    ensures Send(s, p) == Accept <==> Receive(s, msgs).matching == Ms(p)
  {
  }

  /** An unmatched Black node with no proposal stops unmatched on an odd
      round exactly when every port has announced a match elsewhere. */
  lemma BlackStopsUnmatched(s: BpState, msgs: seq<BpMessage>)
    requires s.color == Black && s.matching == Ur && s.round % 2 != 0 && s.mSet == {}
    ensures Receive(s, msgs).matching == Us <==> s.xSet == {}
    ensures Receive(s, msgs).matching != Us ==> Receive(s, msgs).matching == Ur
  {
  }

  /** On an even round an unmatched Black node stays unmatched, forgets the
      ports that announced a match and records the ports that proposed. */
  lemma BlackTallies(s: BpState, msgs: seq<BpMessage>)
    requires s.color == Black && s.matching == Ur && s.round % 2 == 0
    ensures var r := Receive(s, msgs);
      && r.matching == Ur
      && (forall p: nat :: p in r.xSet <==> p in s.xSet && !(p < |msgs| && msgs[p] == Matched))
      && (forall p: nat :: p in r.mSet <==> p in s.mSet || (p < |msgs| && msgs[p] == Proposal))
  {
  }

  /** Whatever arrives, a receive only ever removes ports from `xSet` and
      adds ports to `mSet`. */
  lemma PortSetsMoveOneWay(s: BpState, msgs: seq<BpMessage>)
    ensures Receive(s, msgs).xSet <= s.xSet && s.mSet <= Receive(s, msgs).mSet
  {
  }

  /*---------------------------------------------------------------------------
   * Termination of White nodes
   *-------------------------------------------------------------------------*/

  /** The White states a run can reach: unmatched only until its last
      proposing round, and matched-running only on even rounds. */
  predicate WhiteOk(s: BpState)
  {
    && s.color == White
    && (s.matching == Ur ==> s.round <= 2 * s.degree)
    && (s.matching.Mr? ==> s.round % 2 == 0)
  }

  /** An upper bound on the receives a reachable White node needs to stop. */
  function WhiteLeft(s: BpState): (k: nat)
    requires WhiteOk(s)
    ensures k == 0 <==> IsOutput(s)
  {
    match s.matching
    case Ur => 2 * s.degree + 1 - s.round
    case Mr(_) => 1
    case _ => 0
  }

  /** Every receive keeps a White node reachable and brings a running one
      closer to stopping. */
  lemma WhiteProgresses(s: BpState, msgs: seq<BpMessage>)
    requires WhiteOk(s)
    ensures WhiteOk(Receive(s, msgs))
    ensures WhiteLeft(Receive(s, msgs)) < WhiteLeft(s) || WhiteLeft(s) == 0
  {
  }

  /** A reachable White node has stopped once it has received as many
      inboxes as its bound, whatever they held. */
  lemma {:induction false} WhiteStopsInTime(s: BpState, inboxes: seq<seq<BpMessage>>)
    requires WhiteOk(s) && |inboxes| >= WhiteLeft(s)
    ensures IsOutput(Receives(s, inboxes))
    decreases |inboxes|
  {
    if |inboxes| > 0 {
      WhiteProgresses(s, inboxes[0]);
      if WhiteLeft(s) == 0 {
        StoppedIsAbsorbing(s, inboxes[0]);
      }
      WhiteStopsInTime(Receive(s, inboxes[0]), inboxes[1..]);
    }
  }

  /** A White node stops within 2 * degree + 1 rounds, whatever its
      neighbours send. */
  lemma WhiteStopsWithinDegree(info: Input, inboxes: seq<seq<BpMessage>>)
    requires info.nodeId % 2 == 0 && |inboxes| >= 2 * info.nodeDegree + 1
    ensures IsOutput(Receives(Init(info), inboxes))
  {
    WhiteStopsInTime(Init(info), inboxes);
  }

  /*---------------------------------------------------------------------------
   * In the simulator
   *-------------------------------------------------------------------------*/

  /** Once stopped, a node stays equal to its stopping state, and a state
      equal to an output is an output. */
  lemma BipartiteIsPostStopSafe()
    ensures PostStopSafe(Bipartite()) && OutputRespectsSame(Bipartite())
  {
    var alg := Bipartite();
    forall s, t, msgs | alg.isOutput(t) && alg.same(s, t)
      ensures alg.same(alg.receive(s, msgs), t)
    {
      StoppedIsAbsorbing(s, msgs);
    }
  }

  /** On a network without self-loops, a run of the algorithm never panics,
      and a run that ends with every node stopped is successful. */
  lemma BipartiteRunsSafely(es: seq<(NodeId, NodeId)>, roundLimit: nat, budget: nat)
    requires Simulator.FromNetwork(Bipartite(), es).Ok? && LoopFree(es)
    ensures var r := Simulator.Run(Bipartite(), Simulator.FromNetwork(Bipartite(), es).value, roundLimit, budget);
      && r.Ok?
      && (r.value.1.exit == Simulator.AllStopped ==> r.value.1.successful)
  {
    var sim := Simulator.FromNetwork(Bipartite(), es).value;
    BipartiteIsPostStopSafe();
    Simulator.SafeFreshRunSucceeds(Bipartite(), es, roundLimit, budget);
    Simulator.AllStoppedRunSucceeds(Bipartite(), sim, roundLimit, budget);
  }
}
