/** The network the simulator builds from an edge list: node count, degrees,
    the stored (normalised) edges, petgraph's adjacency iteration order, the
    port numbering derived from it and the "graph must be simple" check. */
module Graph {
  import opened Types

  /** An edge as a pair of end node ids, given or stored. */
  type Link = (nat, nat)

  predicate Distinct(s: seq<nat>)
  {
    forall i, j :: 0 <= i < j < |s| ==> s[i] != s[j]
  }

  predicate StrictlyDecreasing(s: seq<nat>)
  {
    forall i, j :: 0 <= i < j < |s| ==> s[i] > s[j]
  }

  function Max(a: nat, b: nat): nat
  {
    if a < b then b else a
  }

  /*---------------------------------------------------------------------------
   * Node count, degrees and normalisation
   *-------------------------------------------------------------------------*/

  /** The largest end node id over all edges. */
  function MaxEndpoint(es: seq<Link>): (m: nat)
    requires |es| > 0
    ensures forall k :: 0 <= k < |es| ==> es[k].0 <= m && es[k].1 <= m
    ensures exists k :: 0 <= k < |es| && (es[k].0 == m || es[k].1 == m)
    decreases |es|
  {
    var last := Max(es[|es| - 1].0, es[|es| - 1].1);
    if |es| == 1 then last
    else
      var m := MaxEndpoint(es[..|es| - 1]);
      assert forall k :: 0 <= k < |es| - 1 ==> es[..|es| - 1][k] == es[k];
      Max(m, last)
  }

  /** How often `v` occurs among the ends of the edges (a self-loop counts
      twice). */
  function Degree(es: seq<Link>, v: nat): nat
    decreases |es|
  {
    if |es| == 0 then 0
    else
      Degree(es[..|es| - 1], v)
      + (if es[|es| - 1].0 == v then 1 else 0)
      + (if es[|es| - 1].1 == v then 1 else 0)
  }

  /** An edge as stored in the graph: its smaller end is the source. */
  function Normalize(l: Link): (r: Link)
    ensures r.0 <= r.1
    ensures SameEnds(r, l)
  {
    if l.0 > l.1 then (l.1, l.0) else l
  }

  function NormalizeAll(es: seq<Link>): (r: seq<Link>)
    ensures |r| == |es|
    ensures forall k :: 0 <= k < |es| ==> r[k] == Normalize(es[k])
  {
    seq(|es|, k requires 0 <= k < |es| => Normalize(es[k]))
  }

  /** Two links join the same two nodes. */
  predicate SameEnds(a: Link, b: Link)
  {
    a == b || a == (b.1, b.0)
  }

  predicate Normalized(es: seq<Link>)
  {
    forall k :: 0 <= k < |es| ==> es[k].0 <= es[k].1
  }

  predicate LoopFree(es: seq<Link>)
  {
    forall k :: 0 <= k < |es| ==> es[k].0 != es[k].1
  }

  /** Every stored edge has source <= target and joins the same two nodes as
      the given edge it comes from. */
  lemma StoredEdgesNormalised(es: seq<Link>)
    ensures Normalized(NormalizeAll(es))
    ensures forall k :: 0 <= k < |es| ==> SameEnds(NormalizeAll(es)[k], es[k])
    ensures LoopFree(es) <==> LoopFree(NormalizeAll(es))
  {
  }

  /*---------------------------------------------------------------------------
   * Adjacency order and ports
   *-------------------------------------------------------------------------*/

  /** Among the first `n` stored edges, those with `v` as source, the most
      recently added first (petgraph prepends each new edge to the source's
      outgoing list). */
  function Outgoing(es: seq<Link>, v: nat, n: nat): (r: seq<nat>)
    requires n <= |es|
    ensures forall i :: 0 <= i < |r| ==> r[i] < n && es[r[i]].0 == v
    ensures forall k :: 0 <= k < n && es[k].0 == v ==> k in r
    ensures StrictlyDecreasing(r)
    decreases n
  {
    if n == 0 then []
    else
      var rest := Outgoing(es, v, n - 1);
      if es[n - 1].0 == v then
        assert forall i :: 0 <= i < |rest| ==> rest[i] < n - 1;
        [n - 1] + rest
      else rest
  }

  /** Among the first `n` stored edges, those with `v` as target that are not
      self-loops, the most recently added first (petgraph's incoming list,
      which skips self-loops already listed as outgoing). */
  function Incoming(es: seq<Link>, v: nat, n: nat): (r: seq<nat>)
    requires n <= |es|
    ensures forall i :: 0 <= i < |r| ==> r[i] < n && es[r[i]].1 == v && es[r[i]].0 != v
    ensures forall k :: 0 <= k < n && es[k].1 == v && es[k].0 != v ==> k in r
    ensures StrictlyDecreasing(r)
    decreases n
  {
    if n == 0 then []
    else
      var rest := Incoming(es, v, n - 1);
      if es[n - 1].1 == v && es[n - 1].0 != v then
        assert forall i :: 0 <= i < |rest| ==> rest[i] < n - 1;
        [n - 1] + rest
      else rest
  }

  /** The order in which petgraph's `edges(v)` yields the edges at `v`, as
      edge indices: outgoing edges newest first, then incoming ones newest
      first. */
  function AdjacencyOrder(es: seq<Link>, v: nat): seq<nat>
  {
    Outgoing(es, v, |es|) + Incoming(es, v, |es|)
  }

  function Reverse(s: seq<nat>): (r: seq<nat>)
    ensures |r| == |s|
    ensures forall i :: 0 <= i < |s| ==> r[i] == s[|s| - 1 - i]
  {
    seq(|s|, i requires 0 <= i < |s| => s[|s| - 1 - i])
  }

  /** Pushing each item to the front of a deque, in turn. */
  function PushFrontAll(front: seq<nat>, items: seq<nat>): seq<nat>
    decreases |items|
  {
    if |items| == 0 then front else PushFrontAll([items[0]] + front, items[1..])
  }

  lemma {:induction false} PushFrontAllReverses(front: seq<nat>, items: seq<nat>)
    ensures PushFrontAll(front, items) == Reverse(items) + front
    decreases |items|
  {
    if |items| > 0 {
      PushFrontAllReverses([items[0]] + front, items[1..]);
      assert Reverse(items[1..]) + ([items[0]] + front) == Reverse(items) + front;
    }
  }

  /** `edges(v)`: the edges at `v` in port order, i.e. the adjacency order
      pushed front-first into a deque. Every edge incident to `v` is listed
      exactly once (a self-loop too). */
  function Ports(es: seq<Link>, v: nat): (ps: seq<nat>)
    ensures ps == Reverse(AdjacencyOrder(es, v))
    ensures forall k: nat :: k in ps <==> k < |es| && (es[k].0 == v || es[k].1 == v)
    ensures Distinct(ps)
  {
    var adj := AdjacencyOrder(es, v);
    PushFrontAllReverses([], adj);
    assert Reverse(adj) + [] == Reverse(adj);
    AdjacencyMembers(es, v);
    AdjacencyDistinct(es, v);
    ReverseKeepsMembers(adj);
    PushFrontAll([], adj)
  }

  /** Reversing keeps the elements and their distinctness. */
  lemma ReverseKeepsMembers(s: seq<nat>)
    ensures forall k :: k in Reverse(s) <==> k in s
    ensures Distinct(s) ==> Distinct(Reverse(s))
  {
    var r := Reverse(s);
    forall k | k in s ensures k in r {
      var i :| 0 <= i < |s| && s[i] == k;
      assert r[|s| - 1 - i] == k;
    }
  }

  /** The adjacency order lists exactly the edges incident to `v`. */
  lemma AdjacencyMembers(es: seq<Link>, v: nat)
    ensures forall k: nat :: k in AdjacencyOrder(es, v) <==> k < |es| && (es[k].0 == v || es[k].1 == v)
  {
    var o := Outgoing(es, v, |es|);
    var i := Incoming(es, v, |es|);
    forall k: nat | k in o + i ensures k < |es| && (es[k].0 == v || es[k].1 == v) {
      if k in o {
        var j :| 0 <= j < |o| && o[j] == k;
      } else {
        var j :| 0 <= j < |i| && i[j] == k;
      }
    }
  }

  lemma AdjacencyDistinct(es: seq<Link>, v: nat)
    ensures Distinct(AdjacencyOrder(es, v))
  {
    var o := Outgoing(es, v, |es|);
    var i := Incoming(es, v, |es|);
    assert forall a, b :: 0 <= a < |o| && 0 <= b < |i| ==> o[a] != i[b] by {
      forall a, b | 0 <= a < |o| && 0 <= b < |i| ensures o[a] != i[b] {
        assert es[o[a]].0 == v && es[i[b]].0 != v;
      }
    }
  }

  /** The other end of edge `k`, seen from its end `v` (`e.target()`). */
  function Neighbour(es: seq<Link>, k: nat, v: nat): nat
    requires k < |es|
  {
    if es[k].0 == v then es[k].1 else es[k].0
  }

  /** The position of `x` in `s`: the port number of an edge. */
  function IndexOf(s: seq<nat>, x: nat): (i: nat)
    requires x in s
    ensures i < |s| && s[i] == x
    ensures forall j :: 0 <= j < i ==> s[j] != x
    decreases |s|
  {
    if s[0] == x then 0 else 1 + IndexOf(s[1..], x)
  }

  /** Without self-loops, the number of ports of `v` is the degree counted
      from the given edges. */
  lemma PortCountIsDegree(es: seq<Link>, v: nat)
    requires LoopFree(es)
    ensures |Ports(NormalizeAll(es), v)| == Degree(es, v)
  {
    var n := NormalizeAll(es);
    CountUpTo(es, n, v, |es|);
    assert es[..|es|] == es;
  }

  lemma {:induction false} CountUpTo(es: seq<Link>, n: seq<Link>, v: nat, i: nat)
    requires LoopFree(es) && n == NormalizeAll(es) && i <= |es|
    ensures |Outgoing(n, v, i)| + |Incoming(n, v, i)| == Degree(es[..i], v)
    decreases i
  {
    if i > 0 {
      CountUpTo(es, n, v, i - 1);
      var l := es[i - 1];
      assert es[..i][..i - 1] == es[..i - 1];
      assert es[..i][i - 1] == l && n[i - 1] == Normalize(l);
      assert |Outgoing(n, v, i)| == |Outgoing(n, v, i - 1)| + (if n[i - 1].0 == v then 1 else 0);
      assert |Incoming(n, v, i)| == |Incoming(n, v, i - 1)| + (if n[i - 1].1 == v && n[i - 1].0 != v then 1 else 0);
    }
  }

  /*---------------------------------------------------------------------------
   * The simplicity check
   *-------------------------------------------------------------------------*/

  /** `all(|t| uniq.insert(t))`: each target in turn is inserted into the set
      of targets seen so far, and every insertion must find it new. */
  function AllInsert(ts: seq<nat>, seen: set<nat>): bool
    decreases |ts|
  {
    |ts| == 0 || (ts[0] !in seen && AllInsert(ts[1..], seen + {ts[0]}))
  }

  /** The insertion loop accepts exactly the target lists without repeats. */
  lemma {:induction false} AllInsertIffDistinct(ts: seq<nat>, seen: set<nat>)
    ensures AllInsert(ts, seen) <==> Distinct(ts) && forall i :: 0 <= i < |ts| ==> ts[i] !in seen
    decreases |ts|
  {
    if |ts| > 0 {
      AllInsertIffDistinct(ts[1..], seen + {ts[0]});
      if Distinct(ts) && forall i :: 0 <= i < |ts| ==> ts[i] !in seen {
        assert forall i :: 0 <= i < |ts[1..]| ==> ts[1..][i] !in seen + {ts[0]} by {
          forall i | 0 <= i < |ts[1..]| ensures ts[1..][i] !in seen + {ts[0]} {
            assert ts[1..][i] == ts[i + 1];
          }
        }
      }
      if AllInsert(ts, seen) {
        assert Distinct(ts) by {
          forall i, j | 0 <= i < j < |ts| ensures ts[i] != ts[j] {
            if i == 0 {
              assert ts[j] == ts[1..][j - 1];
            } else {
              assert ts[i] == ts[1..][i - 1] && ts[j] == ts[1..][j - 1];
            }
          }
        }
        assert forall i :: 0 <= i < |ts| ==> ts[i] !in seen by {
          forall i | 0 <= i < |ts| ensures ts[i] !in seen {
            if i > 0 {
              assert ts[i] == ts[1..][i - 1];
            }
          }
        }
      }
    }
  }

  /** The neighbours of `v` in port order. */
  function Targets(es: seq<Link>, v: nat): (ts: seq<nat>)
    ensures |ts| == |Ports(es, v)|
  {
    var ps := Ports(es, v);
    seq(|ps|, i requires 0 <= i < |ps| => Neighbour(es, ps[i], v))
  }

  /** The check passes for every node `0 <= v < n`. */
  predicate IsSimple(es: seq<Link>, n: nat)
  {
    forall v :: 0 <= v < n ==> AllInsert(Targets(es, v), {})
  }

  /** On stored edges, the check passes exactly when no two edges join the
      same pair of nodes (which also allows at most one self-loop per node). */
  lemma SimpleIffNoParallelEdges(es: seq<Link>, n: nat)
    requires Normalized(es)
    requires forall k :: 0 <= k < |es| ==> es[k].1 < n
    ensures IsSimple(es, n) <==> NoParallelEdges(es)
  {
    if IsSimple(es, n) {
      SimpleHasNoParallelEdges(es, n);
    } else {
      var v :| 0 <= v < n && !AllInsert(Targets(es, v), {});
      NotSimpleAtHasParallelEdges(es, v);
    }
  }

  predicate NoParallelEdges(es: seq<Link>)
  {
    forall k1, k2 :: 0 <= k1 < k2 < |es| ==> es[k1] != es[k2]
  }

  lemma SimpleHasNoParallelEdges(es: seq<Link>, n: nat)
    requires Normalized(es)
    requires forall k :: 0 <= k < |es| ==> es[k].1 < n
    requires IsSimple(es, n)
    ensures NoParallelEdges(es)
  {
    forall k1, k2 | 0 <= k1 < k2 < |es| ensures es[k1] != es[k2] {
      if es[k1] == es[k2] {
        var a := es[k1].0;
        var ps := Ports(es, a);
        assert k1 in ps && k2 in ps;
        var i1 := IndexOf(ps, k1);
        var i2 := IndexOf(ps, k2);
        var ts := Targets(es, a);
        assert ts[i1] == Neighbour(es, k1, a) == Neighbour(es, k2, a) == ts[i2];
        AllInsertIffDistinct(ts, {});
        assert false;
      }
    }
  }

  lemma NotSimpleAtHasParallelEdges(es: seq<Link>, v: nat)
    requires Normalized(es)
    requires !AllInsert(Targets(es, v), {})
    ensures !NoParallelEdges(es)
  {
    var ts := Targets(es, v);
    var ps := Ports(es, v);
    AllInsertIffDistinct(ts, {});
    var i, j :| 0 <= i < j < |ts| && ts[i] == ts[j];
    var k1, k2 := ps[i], ps[j];
    assert k1 != k2;
    assert Neighbour(es, k1, v) == Neighbour(es, k2, v);
    assert es[k1] == es[k2];
    if k1 > k2 {
      k1, k2 := k2, k1;
    }
    assert 0 <= k1 < k2 < |es| && es[k1] == es[k2];
  }
}
