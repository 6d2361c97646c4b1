/** `IsomorphicNeighborhood<D>`: every node starts from its degree and, for
    D rounds, replaces its value by the sum of its neighbours' values. After
    D rounds a node's value depends only on the shape of its radius-D
    neighbourhood, so nodes with isomorphic neighbourhoods end with equal
    values. The depth D is a parameter of the model. */
module Isomorphic {
  import opened Types
  import opened Graph
  import Simulator

  /** `Count(i, n)`: i rounds done, current value n. */
  datatype InState = Count(i: nat, n: nat)

  datatype InMessage = Number(n: nat)

  /** `init`: no rounds done, the value is the node's degree. */
  function Init(info: Input): (s: InState)
    ensures s.i == 0 && s.n == info.nodeDegree
  {
    Count(0, info.nodeDegree)
  }

  /** `is_output`: the counter has reached the depth. */
  predicate IsOutput(d: nat, s: InState)
  {
    s.i == d
  }

  /** `send`: the current value, on every port; the port does not matter. */
  function Send(s: InState, p: nat): (m: InMessage)
    ensures m.n == s.n
  {
    Number(s.n)
  }

  /** The sum of the numbers received. */
  function Sum(msgs: seq<InMessage>): (total: nat)
  {
    if |msgs| == 0 then 0 else msgs[0].n + Sum(msgs[1..])
  }

  /** `receive`: at the depth the state stays as it is; below it the
      counter advances and the value becomes the sum of the numbers
      received. The state is unchanged exactly at the depth, and a counter
      at or below the depth stays there. */
  function Receive(d: nat, s: InState, msgs: seq<InMessage>): (r: InState)
    ensures r == s <==> s.i == d
    ensures s.i <= d ==> r.i <= d
    ensures s.i != d ==> r.i == s.i + 1 && r.n == Sum(msgs)
  {
    if s.i == d then s else Count(s.i + 1, Sum(msgs))
  }

  /** The algorithm for depth d, as the simulator runs it. State equality is
      the derived one: both the counter and the value. */
  function Isomorphic(d: nat): Algorithm<InState, InMessage>
  {
    Algorithm(Init, Send, (s, msgs) => Receive(d, s, msgs), s => IsOutput(d, s), (s: InState, t: InState) => s == t)
  }

  /** A node receiving one inbox after another. */
  function Receives(d: nat, s: InState, inboxes: seq<seq<InMessage>>): (r: InState)
    decreases |inboxes|
  {
    if |inboxes| == 0 then s else Receives(d, Receive(d, s, inboxes[0]), inboxes[1..])
  }

  /*---------------------------------------------------------------------------
   * Properties
   *-------------------------------------------------------------------------*/

  /** A node below the depth counts one round per receive and stops at the
      depth. */
  lemma {:induction false} CounterAdvances(d: nat, s: InState, inboxes: seq<seq<InMessage>>)
    requires s.i <= d
    ensures Receives(d, s, inboxes).i == if s.i + |inboxes| <= d then s.i + |inboxes| else d
    decreases |inboxes|
  {
    if |inboxes| > 0 {
      CounterAdvances(d, Receive(d, s, inboxes[0]), inboxes[1..]);
    }
  }

  /** From `init`, the counter never exceeds the depth, and the node is an
      output exactly when it has received at least D inboxes. */
  lemma StopsAfterDepth(d: nat, info: Input, inboxes: seq<seq<InMessage>>)
    ensures Receives(d, Init(info), inboxes).i <= d
    ensures IsOutput(d, Receives(d, Init(info), inboxes)) <==> |inboxes| >= d
  {
    CounterAdvances(d, Init(info), inboxes);
  }

  /** At the depth, receiving changes nothing: the state is absorbing and
      receiving twice is receiving once. */
  lemma {:induction false} DepthIsAbsorbing(d: nat, s: InState, inboxes: seq<seq<InMessage>>)
    requires IsOutput(d, s)
    ensures Receives(d, s, inboxes) == s
    decreases |inboxes|
  {
    if |inboxes| > 0 {
      DepthIsAbsorbing(d, Receive(d, s, inboxes[0]), inboxes[1..]);
    }
  }

  /** Below the depth, the new value is the sum of the values the
      neighbours sent, whatever their ports. */
  lemma ReceiveSumsNeighbours(d: nat, s: InState, senders: seq<InState>, ports: seq<nat>)
    requires s.i != d && |senders| == |ports|
    ensures
      var msgs := seq(|senders|, k requires 0 <= k < |senders| => Send(senders[k], ports[k]));
      Receive(d, s, msgs) == Count(s.i + 1, Sum(seq(|senders|, k requires 0 <= k < |senders| => Number(senders[k].n))))
  {
    var msgs := seq(|senders|, k requires 0 <= k < |senders| => Send(senders[k], ports[k]));
    assert msgs == seq(|senders|, k requires 0 <= k < |senders| => Number(senders[k].n));
  }

  /** The sum of a concatenation. */
  lemma {:induction false} SumSplits(a: seq<InMessage>, b: seq<InMessage>)
    ensures Sum(a + b) == Sum(a) + Sum(b)
    decreases |a|
  {
    if |a| > 0 {
      SumSplits(a[1..], b);
      assert (a + b)[1..] == a[1..] + b;
    } else {
      assert a + b == b;
    }
  }

  /** A sequence without its element at position j. */
  function Without(b: seq<InMessage>, j: nat): (r: seq<InMessage>)
    requires j < |b|
    ensures |r| == |b| - 1
  {
    b[..j] + b[j + 1..]
  }

  /** Taking out one message takes it out of the multiset and its number out
      of the sum. */
  lemma TakeOut(b: seq<InMessage>, j: nat)
    requires j < |b|
    ensures multiset(Without(b, j)) == multiset(b) - multiset{b[j]}
    ensures Sum(b) == b[j].n + Sum(Without(b, j))
  {
    TakeOutBag(b, j);
    TakeOutSum(b, j);
  }

  lemma TakeOutBag(b: seq<InMessage>, j: nat)
    requires j < |b|
    ensures multiset(Without(b, j)) == multiset(b) - multiset{b[j]}
  {
    var front, back := b[..j], b[j + 1..];
    assert b == front + [b[j]] + back;
    assert multiset(b) == multiset(front) + multiset{b[j]} + multiset(back);
    assert multiset(Without(b, j)) == multiset(front) + multiset(back);
  }

  lemma TakeOutSum(b: seq<InMessage>, j: nat)
    requires j < |b|
    ensures Sum(b) == b[j].n + Sum(Without(b, j))
  {
    assert b == b[..j] + b[j..];
    SumSplits(b[..j], b[j..]);
    SumFrom(b, j);
    SumSplits(b[..j], b[j + 1..]);
  }

  /** The sum of a suffix is its first number plus the sum of the rest. */
  lemma SumFrom(b: seq<InMessage>, j: nat)
    requires j < |b|
    ensures Sum(b[j..]) == b[j].n + Sum(b[j + 1..])
  {
    assert b[j..][1..] == b[j + 1..];
  }

  /** The sum of the numbers received does not depend on the order of the
      ports they arrived on. */
  lemma {:induction false} SumIgnoresOrder(a: seq<InMessage>, b: seq<InMessage>)
    requires multiset(a) == multiset(b)
    ensures Sum(a) == Sum(b)
    decreases |a|
  {
    if |a| > 0 {
      assert a[0] in multiset(b);
      var j :| 0 <= j < |b| && b[j] == a[0];
      TakeOut(a, 0);
      TakeOut(b, j);
      SumIgnoresOrder(Without(a, 0), Without(b, j));
    } else {
      assert |b| == |multiset(b)|;
    }
  }

  /** Receiving the same messages in another port order gives the same
      state. */
  lemma ReceiveIgnoresPortOrder(d: nat, s: InState, a: seq<InMessage>, b: seq<InMessage>)
    requires multiset(a) == multiset(b)
    ensures Receive(d, s, a) == Receive(d, s, b)
  {
    SumIgnoresOrder(a, b);
  }

  /** A stopped state is absorbing and equality is structural, so the
      simulator's post-stop check never fails for this algorithm. */
  lemma IsomorphicIsPostStopSafe(d: nat)
    ensures PostStopSafe(Isomorphic(d)) && OutputRespectsSame(Isomorphic(d))
  {
  }

  /** On a network without self-loops, a run of the algorithm never panics,
      and a run that ends with every node stopped is successful. */
  lemma IsomorphicRunsSafely(d: nat, es: seq<(NodeId, NodeId)>, roundLimit: nat, budget: nat)
    requires Simulator.FromNetwork(Isomorphic(d), es).Ok? && LoopFree(es)
    ensures var r := Simulator.Run(Isomorphic(d), Simulator.FromNetwork(Isomorphic(d), es).value, roundLimit, budget);
      && r.Ok?
      && (r.value.1.exit == Simulator.AllStopped ==> r.value.1.successful)
  {
    var sim := Simulator.FromNetwork(Isomorphic(d), es).value;
    IsomorphicIsPostStopSafe(d);
    Simulator.SafeFreshRunSucceeds(Isomorphic(d), es, roundLimit, budget);
    Simulator.AllStoppedRunSucceeds(Isomorphic(d), sim, roundLimit, budget);
  }
}
