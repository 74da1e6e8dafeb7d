/** Chains of calls in a code graph, and what they say about distances: the specification that the
    breadth-first search of crates/crytex-doc/src/impact.rs is proved against. */
module CallChains {
  import opened Collections
  import opened CodeGraphs

  // `u` reaches `s` along exactly `k` Calls edges.
  ghost predicate Walk(g: CodeGraph, u: NodeIndex, s: NodeIndex, k: nat)
    decreases k
  {
    if k == 0 then u == s
    else exists e :: 0 <= e < |g.edges| && CallWalk(g, e, u, s, k)
  }

  ghost predicate CallWalk(g: CodeGraph, e: nat, u: NodeIndex, s: NodeIndex, k: nat)
    requires e < |g.edges| && k > 0
    decreases k, 0
  {
    g.IsCall(e) && g.edges[e].source == u && Walk(g, g.edges[e].target, s, k - 1)
  }

  // `d` is the length of a shortest chain of calls from `u` to `s`.
  ghost predicate IsDistance(g: CodeGraph, u: NodeIndex, s: NodeIndex, d: nat) {
    Walk(g, u, s, d) && forall k: nat :: k < d ==> !Walk(g, u, s, k)
  }

  ghost predicate BoundedCaller(g: CodeGraph, u: NodeIndex, s: NodeIndex, maxDepth: nat) {
    exists k: nat :: k <= maxDepth && Walk(g, u, s, k)
  }

  ghost predicate CallPath(g: CodeGraph, path: seq<NodeIndex>) {
    forall i :: 0 <= i < |path| - 1 ==> CallsDirectly(g, path[i], path[i + 1])
  }

  ghost predicate CallsDirectly(g: CodeGraph, u: NodeIndex, v: NodeIndex) {
    exists e :: 0 <= e < |g.edges| && g.edges[e] == Edge(u, v, Calls)
  }

  // Walks are the explicit chains: a walk of length k is a sequence of k + 1 symbols, each calling the next.
  lemma {:induction false} WalkIsPath(g: CodeGraph, u: NodeIndex, s: NodeIndex, k: nat)
    ensures Walk(g, u, s, k) <==>
            exists path: seq<NodeIndex> :: |path| == k + 1 && path[0] == u && path[k] == s && CallPath(g, path)
    decreases k
  {
    if Walk(g, u, s, k) {
      var path := PathOfWalk(g, u, s, k);
    }
    forall path: seq<NodeIndex> | |path| == k + 1 && path[0] == u && path[k] == s && CallPath(g, path)
      ensures Walk(g, u, s, k)
    {
      WalkOfPath(g, path, k);
    }
  }

  lemma {:induction false} PathOfWalk(g: CodeGraph, u: NodeIndex, s: NodeIndex, k: nat) returns (path: seq<NodeIndex>)
    requires Walk(g, u, s, k)
    ensures |path| == k + 1 && path[0] == u && path[k] == s && CallPath(g, path)
    decreases k
  {
    if k == 0 {
      path := [u];
    } else {
      var e :| 0 <= e < |g.edges| && CallWalk(g, e, u, s, k);
      var rest := PathOfWalk(g, g.edges[e].target, s, k - 1);
      assert g.edges[e] == Edge(u, rest[0], Calls);
      path := [u] + rest;
    }
  }

  lemma {:induction false} WalkOfPath(g: CodeGraph, path: seq<NodeIndex>, k: nat)
    requires |path| == k + 1 && CallPath(g, path)
    ensures Walk(g, path[0], path[k], k)
    decreases k
  {
    if k > 0 {
      assert CallsDirectly(g, path[0], path[1]);
      var e :| 0 <= e < |g.edges| && g.edges[e] == Edge(path[0], path[1], Calls);
      WalkOfPath(g, path[1..], k - 1);
      assert CallWalk(g, e, path[0], path[k], k);
    }
  }

  // The Calls edges from `u`, with multiplicity, to symbols one step closer to `s`.
  ghost function ClosingEdges(g: CodeGraph, u: NodeIndex, s: NodeIndex, d: nat): set<nat>
    requires d > 0
  {
    set e | 0 <= e < |g.edges| && g.IsCall(e) && g.edges[e].source == u && IsDistance(g, g.edges[e].target, s, d - 1)
  }

  // The number of shortest chains from `u` to `s`, parallel edges counted apart.
  ghost function ShortestChains(g: CodeGraph, u: NodeIndex, s: NodeIndex, d: nat): nat
    decreases d, 1, 0
  {
    if d == 0 then (if u == s then 1 else 0) else ChainsThrough(g, u, s, d, |g.edges|)
  }

  // ... of these, the ones whose first edge is among the first `k`.
  ghost function ChainsThrough(g: CodeGraph, u: NodeIndex, s: NodeIndex, d: nat, k: nat): nat
    requires d > 0 && k <= |g.edges|
    decreases d, 0, k
  {
    if k == 0 then 0
    else ChainsThrough(g, u, s, d, k - 1) +
         if k - 1 in ClosingEdges(g, u, s, d) then ShortestChains(g, g.edges[k - 1].target, s, d - 1) else 0
  }

  lemma {:induction false} SomeShortestChain(g: CodeGraph, u: NodeIndex, s: NodeIndex, d: nat)
    requires IsDistance(g, u, s, d)
    ensures ShortestChains(g, u, s, d) >= 1
    decreases d
  {
    if d > 0 {
      assert Walk(g, u, s, d);
      var e :| 0 <= e < |g.edges| && CallWalk(g, e, u, s, d);
      var v := g.edges[e].target;
      CloserEdge(g, e, u, s, d);
      SomeShortestChain(g, v, s, d - 1);
      PartOfChains(g, u, s, d, |g.edges|, e);
    }
  }

  // The first edge of a shortest chain leads one step closer.
  lemma CloserEdge(g: CodeGraph, e: nat, u: NodeIndex, s: NodeIndex, d: nat)
    requires e < |g.edges| && d > 0 && CallWalk(g, e, u, s, d) && IsDistance(g, u, s, d)
    ensures e in ClosingEdges(g, u, s, d)
  {
    forall k: nat | k < d - 1
      ensures !Walk(g, g.edges[e].target, s, k)
    {
      assert Walk(g, g.edges[e].target, s, k) ==> CallWalk(g, e, u, s, k + 1);
      assert CallWalk(g, e, u, s, k + 1) ==> Walk(g, u, s, k + 1);
    }
  }

  lemma {:induction false} PartOfChains(g: CodeGraph, u: NodeIndex, s: NodeIndex, d: nat, k: nat, e: nat)
    requires d > 0 && e < k <= |g.edges| && e in ClosingEdges(g, u, s, d)
    ensures ChainsThrough(g, u, s, d, k) >= ShortestChains(g, g.edges[e].target, s, d - 1)
    decreases k
  {
    if e < k - 1 {
      PartOfChains(g, u, s, d, k - 1, e);
    }
  }

  // The edge count equals the chain count exactly when every closer symbol has a single shortest chain.
  lemma {:induction false} CountIsChainsIff(g: CodeGraph, u: NodeIndex, s: NodeIndex, d: nat, k: nat)
    requires d > 0 && k <= |g.edges|
    ensures var closing := set e | e in ClosingEdges(g, u, s, d) && e < k;
            && |closing| <= ChainsThrough(g, u, s, d, k)
            && (|closing| == ChainsThrough(g, u, s, d, k) <==>
                forall e :: e in closing ==> ShortestChains(g, g.edges[e].target, s, d - 1) == 1)
    decreases k
  {
    var closing := set e | e in ClosingEdges(g, u, s, d) && e < k;
    if k == 0 {
      assert closing == {};
    } else {
      var before := set e | e in ClosingEdges(g, u, s, d) && e < k - 1;
      CountIsChainsIff(g, u, s, d, k - 1);
      if k - 1 in ClosingEdges(g, u, s, d) {
        assert closing == before + {k - 1};
        SomeShortestChain(g, g.edges[k - 1].target, s, d - 1);
      } else {
        assert closing == before;
      }
    }
  }

  // Every symbol on the way from `u` has exactly one call that leads closer.
  ghost predicate Unbranched(g: CodeGraph, u: NodeIndex, s: NodeIndex, d: nat)
    decreases d
  {
    d == 0 ||
    (|ClosingEdges(g, u, s, d)| == 1 &&
     forall e :: e in ClosingEdges(g, u, s, d) ==> Unbranched(g, g.edges[e].target, s, d - 1))
  }

  lemma {:induction false} SingleChainIff(g: CodeGraph, u: NodeIndex, s: NodeIndex, d: nat)
    requires IsDistance(g, u, s, d)
    ensures ShortestChains(g, u, s, d) == 1 <==> Unbranched(g, u, s, d)
    decreases d
  {
    if d > 0 {
      var closing := ClosingEdges(g, u, s, d);
      assert closing == set e | e in closing && e < |g.edges|;
      CountIsChainsIff(g, u, s, d, |g.edges|);
      assert Walk(g, u, s, d);
      var first :| 0 <= first < |g.edges| && CallWalk(g, first, u, s, d);
      CloserEdge(g, first, u, s, d);
      assert {first} <= closing && |{first}| <= |closing| by { SubsetSize({first}, closing); }
      forall e | e in closing
        ensures ShortestChains(g, g.edges[e].target, s, d - 1) == 1 <==> Unbranched(g, g.edges[e].target, s, d - 1)
      {
        SingleChainIff(g, g.edges[e].target, s, d - 1);
      }
    }
  }
}
