/** The nodes and edges of a flow (flow.c), as far as sending and signing off depend on them. */
module FlowGraph {
  /** A direct edge stays inside a group and is a plain call; any other edge is a producer of its target's queue. */
  datatype Edge = Edge(direct: bool, target: nat)

  /** What sending does: call a node of the same group, or push on the k-th edge. */
  datatype Call = Receive(target: nat) | PushOn(k: nat)

  /** Edges of one node that are producers of b's queue. */
  function Into(edges: seq<Edge>, b: nat): nat {
    if edges == [] then 0
    else Into(edges[..|edges| - 1], b) + (if !edges[|edges| - 1].direct && edges[|edges| - 1].target == b then 1 else 0)
  }

  function AllInto(edges: seq<seq<Edge>>, b: nat): nat {
    if edges == [] then 0 else AllInto(edges[..|edges| - 1], b) + Into(edges[|edges| - 1], b)
  }

  lemma {:induction false} IntoOneMore(edges: seq<seq<Edge>>, a: nat, e: Edge, b: nat)
    requires a < |edges|
    ensures AllInto(edges[a := edges[a] + [e]], b)
         == AllInto(edges, b) + (if !e.direct && e.target == b then 1 else 0)
  {
    var n, more := |edges| - 1, edges[a := edges[a] + [e]];
    if a == n {
      assert more[..n] == edges[..n];
      assert (edges[a] + [e])[..|edges[a]|] == edges[a];
    } else {
      IntoOneMore(edges[..n], a, e, b);
      assert more[..n] == edges[..n][a := edges[a] + [e]];
    }
  }

  lemma {:induction false} IntoNone(edges: seq<Edge>, b: nat)
    requires forall k :: 0 <= k < |edges| ==> edges[k].target < b
    ensures Into(edges, b) == 0
  {
    if edges != [] {
      IntoNone(edges[..|edges| - 1], b);
    }
  }

  lemma {:induction false} AllIntoNone(edges: seq<seq<Edge>>, b: nat)
    requires forall a, k :: 0 <= a < |edges| && 0 <= k < |edges[a]| ==> edges[a][k].target < b
    ensures AllInto(edges, b) == 0
  {
    if edges != [] {
      AllIntoNone(edges[..|edges| - 1], b);
      IntoNone(edges[|edges| - 1], b);
    }
  }

  /** How often the k-th edge is pushed on. */
  function PushesOn(calls: seq<Call>, k: nat): nat {
    multiset(calls)[PushOn(k)]
  }

  /** How many of the pushes go to b's queue. */
  function PushesInto(calls: seq<Call>, edges: seq<Edge>, b: nat): nat {
    if calls == [] then 0
    else
      var c := calls[|calls| - 1];
      PushesInto(calls[..|calls| - 1], edges, b)
      + (if c.PushOn? && c.k < |edges| && edges[c.k].target == b then 1 else 0)
  }

  function AllPushesInto(exits: seq<seq<Call>>, edges: seq<seq<Edge>>, b: nat): nat
    requires |exits| == |edges|
  {
    if exits == [] then 0
    else
      var n := |exits| - 1;
      AllPushesInto(exits[..n], edges[..n], b) + PushesInto(exits[n], edges[n], b)
  }

  ghost predicate Matched(exits: seq<seq<Call>>, edges: seq<seq<Edge>>) {
    |exits| == |edges| && forall b: nat :: AllPushesInto(exits, edges, b) == AllInto(edges, b)
  }

  /** One more node leaves. */
  lemma ExitAdds(exits: seq<seq<Call>>, edges: seq<seq<Edge>>, calls: seq<Call>)
    requires |exits| < |edges| && Matched(exits, edges[..|exits|])
    requires forall b: nat :: PushesInto(calls, edges[|exits|], b) == Into(edges[|exits|], b)
    ensures Matched(exits + [calls], edges[..|exits| + 1])
  {
    var n := |exits|;
    var more, upTo := exits + [calls], edges[..n + 1];
    assert more[..n] == exits && upTo[..n] == edges[..n] && upTo[n] == edges[n];
    forall b: nat ensures AllPushesInto(more, upTo, b) == AllInto(upTo, b) {
      assert AllPushesInto(exits, edges[..n], b) == AllInto(edges[..n], b);
      assert PushesInto(calls, edges[n], b) == Into(edges[n], b);
    }
  }

  lemma NoPush(calls: seq<Call>)
    ensures (forall c :: 0 <= c < |calls| ==> calls[c].Receive?) ==> forall k: nat :: PushesOn(calls, k) == 0
    ensures (forall c :: 0 <= c < |calls| ==> calls[c].PushOn?) ==> forall b: nat :: multiset(calls)[Receive(b)] == 0
  {
    if exists k: nat :: PushesOn(calls, k) > 0 {
      var k: nat :| PushesOn(calls, k) > 0;
      assert PushOn(k) in calls;
    }
    if exists b: nat :: multiset(calls)[Receive(b)] > 0 {
      var b: nat :| multiset(calls)[Receive(b)] > 0;
      assert Receive(b) in calls;
    }
  }

  /** The calls of the direct targets, in the order of the edges. */
  function DirectCalls(edges: seq<Edge>): (calls: seq<Call>)
    ensures forall c :: 0 <= c < |calls| ==> calls[c].Receive?
  {
    if edges == [] then []
    else
      var e := edges[|edges| - 1];
      DirectCalls(edges[..|edges| - 1]) + (if e.direct then [Receive(e.target)] else [])
  }

  /** The direct edges are plain calls, in order. */
  method CallDirect(es: seq<Edge>) returns (calls: seq<Call>)
    ensures calls == DirectCalls(es)
  {
    calls := [];
    var k := 0;
    while k < |es|
      invariant 0 <= k <= |es| && calls == DirectCalls(es[..k])
    {
      assert es[..k + 1][..k] == es[..k];
      if es[k].direct {
        calls := calls + [Receive(es[k].target)];
      }
      k := k + 1;
    }
    assert es[..k] == es;
  }

  lemma {:induction false} DirectCounted(edges: seq<Edge>, b: nat)
    ensures multiset(DirectCalls(edges))[Receive(b)] == DirectTo(edges, b)
  {
    if edges != [] {
      var e := edges[|edges| - 1];
      DirectCounted(edges[..|edges| - 1], b);
      assert DirectCalls(edges)
          == DirectCalls(edges[..|edges| - 1]) + (if e.direct then [Receive(e.target)] else []);
    }
  }

  /** The other edges are pushed on, in order. */
  method PushOthers(es: seq<Edge>) returns (calls: seq<Call>)
    ensures forall c :: 0 <= c < |calls| ==> calls[c].PushOn? && calls[c].k < |es|
    ensures forall c, d :: 0 <= c < d < |calls| ==> calls[c].k < calls[d].k
    ensures forall k: nat :: PushesOn(calls, k) == if k < |es| && !es[k].direct then 1 else 0
  {
    calls := [];
    var k := 0;
    while k < |es|
      invariant 0 <= k <= |es|
      invariant forall c :: 0 <= c < |calls| ==> calls[c].PushOn? && calls[c].k < k
      invariant forall c, d :: 0 <= c < d < |calls| ==> calls[c].k < calls[d].k
      invariant forall i: nat :: PushesOn(calls, i) == if i < k && !es[i].direct then 1 else 0
    {
      if !es[k].direct {
        calls := calls + [PushOn(k)];
      }
      k := k + 1;
    }
  }

  class Graph {
    var groups: seq<nat>
    var edges: seq<seq<Edge>>
    // consumer_sources of each node.
    var sources: seq<nat>

    /** Every node's count is the number of edges into it from other groups. */
    ghost predicate Valid()
      reads this
    {
      && |edges| == |sources| == |groups|
      && (forall a, k :: 0 <= a < |edges| && 0 <= k < |edges[a]| ==>
            && edges[a][k].target < |groups|
            && (edges[a][k].direct <==> groups[a] == groups[edges[a][k].target]))
      && (forall b: nat :: b < |groups| ==> sources[b] == AllInto(edges, b))
    }

    constructor ()
      ensures Valid() && groups == []
    {
      groups, edges, sources := [], [], [];
    }

    method AddNode(group: nat)
      requires Valid()
      modifies this
      ensures Valid() && groups == old(groups) + [group] && edges == old(edges) + [[]]
    {
      AllIntoNone(edges, |groups|);
      groups, edges, sources := groups + [group], edges + [[]], sources + [0];
      assert edges[..|edges| - 1] == old(edges);
    }

    method Connect(node: nat, target: nat)
      requires Valid() && node < |groups| && target < |groups|
      modifies this
      ensures Valid() && groups == old(groups)
      ensures edges == old(edges)[node := old(edges)[node] + [Edge(groups[node] == groups[target], target)]]
    {
      var e := Edge(groups[node] == groups[target], target);
      forall b: nat | b < |groups|
        ensures AllInto(edges[node := edges[node] + [e]], b)
             == AllInto(edges, b) + (if !e.direct && e.target == b then 1 else 0)
      {
        IntoOneMore(edges, node, e, b);
      }
      edges := edges[node := edges[node] + [e]];
      if !e.direct {
        sources := sources[target := sources[target] + 1];
      }
    }

    /**
     * Sending a message: the direct targets are called first, in the order of the edges, then every other edge
     * is pushed on exactly once, again in order.
     */
    method Send(node: nat) returns (calls: seq<Call>)
      requires Valid() && node < |groups|
      ensures DirectCalls(edges[node]) <= calls
      ensures forall c :: |DirectCalls(edges[node])| <= c < |calls| ==> calls[c].PushOn?
      ensures forall c, d :: |DirectCalls(edges[node])| <= c < d < |calls| ==> calls[c].k < calls[d].k
      ensures forall k: nat :: PushesOn(calls, k) == if k < |edges[node]| && !edges[node][k].direct then 1 else 0
      ensures forall b: nat :: multiset(calls)[Receive(b)] == DirectTo(edges[node], b)
    {
      var direct := CallDirect(edges[node]);
      var pushed := PushOthers(edges[node]);
      calls := direct + pushed;
      forall b: nat ensures multiset(direct)[Receive(b)] == DirectTo(edges[node], b) {
        DirectCounted(edges[node], b);
      }
      NoPush(direct);
      NoPush(pushed);
    }

    /** Leaving: every edge to another group gets one NULL. */
    method Exit(node: nat) returns (calls: seq<Call>)
      requires Valid() && node < |groups|
      ensures forall c :: 0 <= c < |calls| ==> calls[c].PushOn?
      ensures forall k: nat :: PushesOn(calls, k) == if k < |edges[node]| && !edges[node][k].direct then 1 else 0
      ensures forall b: nat :: PushesInto(calls, edges[node], b) == Into(edges[node], b)
    {
      var es := edges[node];
      calls := [];
      var k := 0;
      while k < |es|
        invariant 0 <= k <= |es|
        invariant forall c :: 0 <= c < |calls| ==> calls[c].PushOn?
        invariant forall i: nat :: PushesOn(calls, i) == if i < k && !es[i].direct then 1 else 0
        invariant forall b: nat :: PushesInto(calls, es, b) == Into(es[..k], b)
      {
        assert es[..k + 1][..k] == es[..k];
        if !es[k].direct {
          assert (calls + [PushOn(k)])[..|calls|] == calls;
          calls := calls + [PushOn(k)];
        }
        k := k + 1;
      }
      assert es[..k] == es;
    }

    /** When every node of a flow has left, each has been sent as many NULLs as it counts sources. */
    method ExitAll() returns (exits: seq<seq<Call>>)
      requires Valid()
      ensures |exits| == |edges|
      ensures forall b: nat :: b < |groups| ==> AllPushesInto(exits, edges, b) == sources[b]
    {
      exits := [];
      var a := 0;
      while a < |edges|
        invariant 0 <= a <= |edges| && |exits| == a
        invariant Matched(exits, edges[..a])
      {
        var calls := Exit(a);
        ExitAdds(exits, edges, calls);
        exits := exits + [calls];
        a := a + 1;
      }
      assert edges[..a] == edges;
    }
  }

  /** Direct edges to b. */
  function DirectTo(edges: seq<Edge>, b: nat): nat {
    if edges == [] then 0
    else DirectTo(edges[..|edges| - 1], b)
         + (if edges[|edges| - 1].direct && edges[|edges| - 1].target == b then 1 else 0)
  }
}
