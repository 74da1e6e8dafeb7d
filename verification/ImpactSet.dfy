/** The impact of several changed symbols: `impact_set` of crates/crytex-doc/src/impact.rs. */
module ImpactSets {
  import opened Numbers
  import opened CodeGraphs
  import opened CallChains
  import opened Ranking
  import opened Impact

  datatype Query = Query(starts: seq<SymbolId>, maxDepth: nat, includeImplementors: bool)

  ghost predicate Implements(g: CodeGraph, n: NodeIndex, start: NodeIndex) {
    exists e :: 0 <= e < |g.edges| && g.edges[e] == Edge(n, start, EdgeKind.Implements)
  }

  ghost predicate Calls(g: CodeGraph, q: Query, n: NodeIndex, start: NodeIndex) {
    n != start && BoundedCaller(g, n, start, q.maxDepth)
  }

  // The starting symbol `id` impacts node `n`.
  ghost predicate Impacts(g: CodeGraph, q: Query, id: SymbolId, n: NodeIndex) {
    id in g.index && n < |g.nodes| &&
    (Calls(g, q, n, g.index[id]) || (q.includeImplementors && Implements(g, n, g.index[id])))
  }

  // ... and `x` is how it reports it: as a caller when it is one, otherwise as an implementor one step away.
  ghost predicate ReportedBy(g: CodeGraph, q: Query, id: SymbolId, n: NodeIndex, x: ImpactedSymbol) {
    Impacts(g, q, id, n) &&
    if Calls(g, q, n, g.index[id]) then CallerEntry(g, g.index[id], q.maxDepth, n, x)
    else x == ImpactedSymbol(g.nodes[n], 1, 1)
  }

  // `x` comes from the first starting symbol, in list order, that impacts its node.
  ghost predicate FromFirst(g: CodeGraph, q: Query, k: nat, x: ImpactedSymbol)
    requires k <= |q.starts|
  {
    x.symbol.id in g.index &&
    exists j :: 0 <= j < k && FirstAt(g, q, j, g.index[x.symbol.id], x)
  }

  ghost predicate FirstAt(g: CodeGraph, q: Query, j: nat, n: NodeIndex, x: ImpactedSymbol)
    requires j < |q.starts|
  {
    ReportedBy(g, q, q.starts[j], n, x) && forall i :: 0 <= i < j ==> !Impacts(g, q, q.starts[i], n)
  }

  ghost predicate Listed(g: CodeGraph, r: seq<ImpactedSymbol>, n: NodeIndex)
    requires n < |g.nodes|
  {
    exists x :: x in r && x.symbol == g.nodes[n]
  }

  // The entries are the union of what the first `k` starting symbols impact, each symbol once.
  ghost predicate UnionOf(g: CodeGraph, q: Query, k: nat, r: seq<ImpactedSymbol>)
    requires k <= |q.starts|
  {
    && DistinctSymbols(r)
    && (forall x :: x in r ==> FromFirst(g, q, k, x))
    && (forall j, n: NodeIndex :: 0 <= j < k && Impacts(g, q, q.starts[j], n) ==> Listed(g, r, n))
  }

  // The same while the symbols impacted by start `k` are being added; `done` are the ones handled.
  ghost predicate Adding(g: CodeGraph, q: Query, k: nat, done: set<NodeIndex>, r: seq<ImpactedSymbol>)
    requires k < |q.starts|
  {
    && DistinctSymbols(r)
    && (forall x :: x in r ==> FromFirst(g, q, k + 1, x))
    && (forall j, n: NodeIndex :: 0 <= j < k && Impacts(g, q, q.starts[j], n) ==> Listed(g, r, n))
    && (forall n :: n in done ==> n < |g.nodes| && Listed(g, r, n))
    && (forall x :: x in r ==> FromFirst(g, q, k, x) || g.index[x.symbol.id] in done)
  }

  ghost predicate IdsOf(r: seq<ImpactedSymbol>, ids: set<SymbolId>) {
    forall id :: id in ids <==> exists x :: x in r && x.symbol.id == id
  }

  // Lists an entry unless its symbol is listed already.
  method PushNew(ids: set<SymbolId>, impacted: seq<ImpactedSymbol>, x: ImpactedSymbol)
    returns (ids': set<SymbolId>, impacted': seq<ImpactedSymbol>)
    requires IdsOf(impacted, ids)
    ensures IdsOf(impacted', ids')
    ensures impacted' == if exists y :: y in impacted && y.symbol.id == x.symbol.id then impacted else impacted + [x]
  {
    ids', impacted' := ids + {x.symbol.id}, impacted;
    if x.symbol.id !in ids {
      impacted' := impacted + [x];
      assert x in impacted' && forall y :: y in impacted ==> y in impacted';
    }
  }

  lemma PushKeeps(g: CodeGraph, q: Query, k: nat, done: set<NodeIndex>, r: seq<ImpactedSymbol>, n: NodeIndex,
                  x: ImpactedSymbol, r': seq<ImpactedSymbol>)
    requires g.Valid() && k < |q.starts| && Adding(g, q, k, done, r)
    requires n < |g.nodes| && x.symbol == g.nodes[n]
    requires ReportedBy(g, q, q.starts[k], n, x) || Listed(g, r, n)
    requires r' == if exists y :: y in r && y.symbol.id == x.symbol.id then r else r + [x]
    ensures Adding(g, q, k, done + {n}, r')
  {
    hide ReportedBy;
    if y :| y in r && y.symbol.id == x.symbol.id {
      EntryNode(g, q, k + 1, y);
      assert Listed(g, r, n);
    } else {
      assert !Listed(g, r, n);
      PushFresh(g, q, k, done, r, n, x);
    }
  }

  lemma EntryNode(g: CodeGraph, q: Query, k: nat, x: ImpactedSymbol)
    requires g.Valid() && k <= |q.starts| && FromFirst(g, q, k, x)
    ensures x.symbol == g.nodes[g.index[x.symbol.id]]
  {
    var j :| 0 <= j < k && FirstAt(g, q, j, g.index[x.symbol.id], x);
  }

  lemma PushFresh(g: CodeGraph, q: Query, k: nat, done: set<NodeIndex>, r: seq<ImpactedSymbol>, n: NodeIndex, x: ImpactedSymbol)
    requires g.Valid() && k < |q.starts| && Adding(g, q, k, done, r)
    requires n < |g.nodes| && x.symbol == g.nodes[n] && ReportedBy(g, q, q.starts[k], n, x)
    requires !Listed(g, r, n) && forall y :: y in r ==> y.symbol.id != x.symbol.id
    ensures Adding(g, q, k, done + {n}, r + [x])
  {
    hide ReportedBy;
    var r' := r + [x];
    assert FirstAt(g, q, k, n, x);
    assert FromFirst(g, q, k + 1, x);
    assert x in r';
    forall m: NodeIndex | m < |g.nodes| && Listed(g, r, m)
      ensures Listed(g, r', m)
    {
      var y :| y in r && y.symbol == g.nodes[m];
      assert y in r';
    }
    assert Listed(g, r', n);
    forall y | y in r'
      ensures FromFirst(g, q, k + 1, y) && (FromFirst(g, q, k, y) || g.index[y.symbol.id] in done + {n})
    {
      assert y in r || y == x;
    }
  }

  lemma AddingStarts(g: CodeGraph, q: Query, k: nat, r: seq<ImpactedSymbol>)
    requires k < |q.starts| && UnionOf(g, q, k, r)
    ensures Adding(g, q, k, {}, r)
  {
    forall x | x in r
      ensures FromFirst(g, q, k + 1, x)
    {
      assert FromFirst(g, q, k, x);
    }
  }

  lemma AddingEnds(g: CodeGraph, q: Query, k: nat, done: set<NodeIndex>, r: seq<ImpactedSymbol>)
    requires k < |q.starts| && Adding(g, q, k, done, r)
    requires forall n: NodeIndex :: Impacts(g, q, q.starts[k], n) ==> n in done
    ensures UnionOf(g, q, k + 1, r)
  {
  }

  lemma CallerIsReported(g: CodeGraph, q: Query, k: nat, callers: seq<ImpactedSymbol>, x: ImpactedSymbol)
    requires g.Valid() && k < |q.starts| && ExactCallers(g, q.starts[k], q.maxDepth, callers) && x in callers
    ensures x.symbol.id in g.index && x.symbol == g.nodes[g.index[x.symbol.id]]
    ensures ReportedBy(g, q, q.starts[k], g.index[x.symbol.id], x)
  {
    assert IsCallerEntry(g, g.index[q.starts[k]], q.maxDepth, x);
  }

  // Every bounded caller is among the callers handled.
  lemma CallersHandled(g: CodeGraph, q: Query, k: nat, callers: seq<ImpactedSymbol>, done: set<NodeIndex>)
    requires g.Valid() && k < |q.starts| && ExactCallers(g, q.starts[k], q.maxDepth, callers)
    requires forall x :: x in callers ==> x.symbol.id in g.index && g.index[x.symbol.id] in done
    ensures q.starts[k] in g.index ==> forall n: NodeIndex :: n < |g.nodes| && Calls(g, q, n, g.index[q.starts[k]]) ==> n in done
  {
  }

  method ImpactSet(g: CodeGraph, q: Query) returns (impacted: seq<ImpactedSymbol>)
    requires g.Valid() && q.maxDepth <= USIZE_MAX
    ensures UnionOf(g, q, |q.starts|, impacted) && Ranked(impacted)
  {
    hide Adding, UnionOf, IdsOf, ReportedBy, ExactCallers, Ranked;
    impacted := [];
    var ids: set<SymbolId> := {};
    NothingYet(g, q);
    for k := 0 to |q.starts|
      invariant UnionOf(g, q, k, impacted) && IdsOf(impacted, ids)
    {
      AddingStarts(g, q, k, impacted);
      ghost var done: set<NodeIndex> := {};
      var callers := TransitiveCallers(g, q.starts[k], q.maxDepth);
      for i := 0 to |callers|
        invariant Adding(g, q, k, done, impacted) && IdsOf(impacted, ids)
        invariant forall j :: 0 <= j < i ==> callers[j].symbol.id in g.index && g.index[callers[j].symbol.id] in done
      {
        CallerIsReported(g, q, k, callers, callers[i]);
        ghost var before, n := impacted, g.index[callers[i].symbol.id];
        ids, impacted := PushNew(ids, impacted, callers[i]);
        PushKeeps(g, q, k, done, before, n, callers[i], impacted);
        done := done + {n};
      }
      CallersHandled(g, q, k, callers, done);
      if q.includeImplementors && q.starts[k] in g.index {
        ids, impacted, done := PushImplementors(g, q, k, ids, impacted, done);
      }
      AddingEnds(g, q, k, done, impacted);
    }
    UnionSorted(g, q, impacted);
    impacted := SortByRank(impacted);
  }

  method PushImplementors(g: CodeGraph, q: Query, k: nat, ids0: set<SymbolId>, impacted0: seq<ImpactedSymbol>, ghost done0: set<NodeIndex>)
    returns (ids: set<SymbolId>, impacted: seq<ImpactedSymbol>, ghost done: set<NodeIndex>)
    requires g.Valid() && k < |q.starts| && q.includeImplementors && q.starts[k] in g.index
    requires Adding(g, q, k, done0, impacted0) && IdsOf(impacted0, ids0)
    requires forall n: NodeIndex :: n < |g.nodes| && Calls(g, q, n, g.index[q.starts[k]]) ==> n in done0
    ensures Adding(g, q, k, done, impacted) && IdsOf(impacted, ids) && done0 <= done
    ensures forall n: NodeIndex :: Implements(g, n, g.index[q.starts[k]]) ==> n in done
  {
    ids, impacted, done := ids0, impacted0, done0;
    hide Adding, IdsOf, ReportedBy, BoundedCaller;
    ghost var start := g.index[q.starts[k]];
    var incoming := g.Incoming(g.index[q.starts[k]]);
    assert forall j :: 0 <= j < |incoming| ==> incoming[j] in incoming && g.edges[incoming[j]].target == start;
    for i := 0 to |incoming|
      invariant Adding(g, q, k, done, impacted) && IdsOf(impacted, ids) && done0 <= done
      invariant forall j :: 0 <= j < i && g.edges[incoming[j]].kind == EdgeKind.Implements ==> g.edges[incoming[j]].source in done
    {
      var e := incoming[i];
      if g.edges[e].kind == EdgeKind.Implements {
        var n := g.edges[e].source;
        var x := ImpactedSymbol(g.nodes[n], 1, 1);
        ghost var before := impacted;
        ImplementorIsReported(g, q, k, done0, done, impacted, e);
        ids, impacted := PushNew(ids, impacted, x);
        PushKeeps(g, q, k, done, before, n, x, impacted);
        done := done + {n};
      }
    }
  }

  lemma ImplementorIsReported(g: CodeGraph, q: Query, k: nat, callers: set<NodeIndex>, done: set<NodeIndex>,
                              r: seq<ImpactedSymbol>, e: nat)
    requires g.Valid() && k < |q.starts| && q.includeImplementors && q.starts[k] in g.index
    requires Adding(g, q, k, done, r) && callers <= done
    requires forall n: NodeIndex :: n < |g.nodes| && Calls(g, q, n, g.index[q.starts[k]]) ==> n in callers
    requires e < |g.edges| && g.edges[e].kind == EdgeKind.Implements && g.edges[e].target == g.index[q.starts[k]]
    ensures var n := g.edges[e].source;
            ReportedBy(g, q, q.starts[k], n, ImpactedSymbol(g.nodes[n], 1, 1)) || Listed(g, r, n)
  {
    var n := g.edges[e].source;
    assert Implements(g, n, g.index[q.starts[k]]);
  }

  lemma NothingYet(g: CodeGraph, q: Query)
    ensures UnionOf(g, q, 0, []) && IdsOf([], {})
  {
  }

  lemma UnionSorted(g: CodeGraph, q: Query, r: seq<ImpactedSymbol>)
    requires UnionOf(g, q, |q.starts|, r)
    ensures UnionOf(g, q, |q.starts|, SortByRank(r))
  {
    SortKeepsEntries(r);
    forall n: NodeIndex | n < |g.nodes| && Listed(g, r, n)
      ensures Listed(g, SortByRank(r), n)
    {
      var x :| x in r && x.symbol == g.nodes[n];
      assert x in SortByRank(r);
    }
  }

  // A single starting symbol without implementors: exactly its bounded callers.
  lemma SingleStart(g: CodeGraph, q: Query, r: seq<ImpactedSymbol>)
    requires g.Valid() && |q.starts| == 1 && !q.includeImplementors && UnionOf(g, q, 1, r)
    ensures ExactCallers(g, q.starts[0], q.maxDepth, r)
  {
    var id := q.starts[0];
    forall x | x in r
      ensures id in g.index && IsCallerEntry(g, g.index[id], q.maxDepth, x)
    {
      assert FromFirst(g, q, 1, x);
    }
    if r != [] {
      assert r[0] in r;
    }
    if id in g.index {
      forall n: NodeIndex | n < |g.nodes| && n != g.index[id] && BoundedCaller(g, n, g.index[id], q.maxDepth)
        ensures exists x :: x in r && x.symbol == g.nodes[n]
      {
        assert Impacts(g, q, q.starts[0], n);
        assert Listed(g, r, n);
      }
    }
  }

  lemma ReportUnique(g: CodeGraph, q: Query, id: SymbolId, n: NodeIndex, x: ImpactedSymbol, y: ImpactedSymbol)
    requires ReportedBy(g, q, id, n, x) && ReportedBy(g, q, id, n, y)
    ensures x == y
  {
    if Calls(g, q, n, g.index[id]) {
      assert Walk(g, n, g.index[id], x.distance) && Walk(g, n, g.index[id], y.distance);
    }
  }

  // The entries, with their distances and counts, are determined by the graph and the query.
  lemma ImpactDetermined(g: CodeGraph, q: Query, r: seq<ImpactedSymbol>, r': seq<ImpactedSymbol>)
    requires g.Valid() && UnionOf(g, q, |q.starts|, r) && UnionOf(g, q, |q.starts|, r')
    ensures multiset(r) == multiset(r')
  {
    forall x
      ensures multiset(r)[x] == multiset(r')[x]
    {
      if x in r {
        ImpactAgrees(g, q, r, r', x);
      }
      if x in r' {
        ImpactAgrees(g, q, r', r, x);
      }
      AtMostOnce(r, x);
      AtMostOnce(r', x);
    }
  }

  lemma ImpactAgrees(g: CodeGraph, q: Query, r: seq<ImpactedSymbol>, r': seq<ImpactedSymbol>, x: ImpactedSymbol)
    requires g.Valid() && UnionOf(g, q, |q.starts|, r) && UnionOf(g, q, |q.starts|, r') && x in r
    ensures x in r'
  {
    assert FromFirst(g, q, |q.starts|, x);
    var n := g.index[x.symbol.id];
    var j :| 0 <= j < |q.starts| && FirstAt(g, q, j, n, x);
    assert Impacts(g, q, q.starts[j], n);
    assert Listed(g, r', n);
    var y :| y in r' && y.symbol == g.nodes[n];
    assert FromFirst(g, q, |q.starts|, y);
    var i :| 0 <= i < |q.starts| && FirstAt(g, q, i, n, y);
    assert i == j;
    ReportUnique(g, q, q.starts[j], n, x, y);
  }

  // The graph takes node `n` to the starting symbol `id` in fewer than `distance` steps: by a chain of calls, or, when
  // implementors count, by implementing it.
  ghost predicate IsNearer(g: CodeGraph, q: Query, id: SymbolId, n: NodeIndex, distance: nat) {
    CallsNearer(g, id, n, distance) || ImplementsNearer(g, q, id, n, distance)
  }

  ghost predicate CallsNearer(g: CodeGraph, id: SymbolId, n: NodeIndex, distance: nat) {
    id in g.index && n != g.index[id] && exists k: nat :: 1 <= k < distance && Walk(g, n, g.index[id], k)
  }

  ghost predicate ImplementsNearer(g: CodeGraph, q: Query, id: SymbolId, n: NodeIndex, distance: nat) {
    id in g.index && q.includeImplementors && distance > 1 && Implements(g, n, g.index[id])
  }

  // The listed distance is that of the nearest starting symbol if and only if the symbol does not also implement the
  // first one that impacts it while being farther from it as a caller, and is no nearer to one listed later.
  lemma NearestIff(g: CodeGraph, q: Query, r: seq<ImpactedSymbol>, x: ImpactedSymbol) returns (j: nat)
    requires g.Valid() && UnionOf(g, q, |q.starts|, r) && x in r
    ensures x.symbol.id in g.index && j < |q.starts| && FirstAt(g, q, j, g.index[x.symbol.id], x)
    ensures var n := g.index[x.symbol.id];
            (forall i :: 0 <= i < |q.starts| ==> !IsNearer(g, q, q.starts[i], n, x.distance)) <==>
            && !ImplementsNearer(g, q, q.starts[j], n, x.distance)
            && forall i :: j < i < |q.starts| ==> !IsNearer(g, q, q.starts[i], n, x.distance)
  {
    assert FromFirst(g, q, |q.starts|, x);
    var n := g.index[x.symbol.id];
    j :| 0 <= j < |q.starts| && FirstAt(g, q, j, n, x);
    assert IsNearer(g, q, q.starts[j], n, x.distance) <==> ImplementsNearer(g, q, q.starts[j], n, x.distance) by {
      NotNearerAsCaller(g, q, q.starts[j], n, x);
    }
    forall i | 0 <= i < j
      ensures !IsNearer(g, q, q.starts[i], n, x.distance)
    {
      NotNearerBefore(g, q, q.starts[i], q.starts[j], n, x);
    }
  }

  // The start that reports a caller has no shorter chain from it.
  lemma NotNearerAsCaller(g: CodeGraph, q: Query, id: SymbolId, n: NodeIndex, x: ImpactedSymbol)
    requires ReportedBy(g, q, id, n, x)
    ensures !CallsNearer(g, id, n, x.distance)
  {
    assert Calls(g, q, n, g.index[id]) || x.distance == 1;
  }

  // A start that does not impact a node is not near it, within the bound that every listed distance keeps.
  lemma NotNearerBefore(g: CodeGraph, q: Query, id: SymbolId, reporter: SymbolId, n: NodeIndex, x: ImpactedSymbol)
    requires ReportedBy(g, q, reporter, n, x) && !Impacts(g, q, id, n)
    ensures !IsNearer(g, q, id, n, x.distance)
  {
    if id in g.index && n != g.index[id] {
      forall k: nat | 1 <= k < x.distance
        ensures !Walk(g, n, g.index[id], k)
      {
        assert k <= q.maxDepth;
        assert !BoundedCaller(g, n, g.index[id], q.maxDepth);
      }
    }
  }

  // The distance is that of the first starting symbol that reaches a node, which need not be the nearest:
  // `u` calls `b` directly and `a` through `b`; starting from [a, b], it is ranked at distance 2.
  function TwoStarts(): CodeGraph {
    CodeGraph([SymbolNode("a", "a"), SymbolNode("b", "b"), SymbolNode("u", "u")],
              [Edge(1, 0, EdgeKind.Calls), Edge(2, 1, EdgeKind.Calls)], map["a" := 0, "b" := 1, "u" := 2])
  }

  lemma TwoStartsWalks()
    ensures TwoStarts().Valid()
    ensures Walk(TwoStarts(), 2, 0, 2) && IsDistance(TwoStarts(), 2, 0, 2) && IsDistance(TwoStarts(), 2, 1, 1)
  {
    var g := TwoStarts();
    assert g.nodes[0].id == "a" && g.nodes[1].id == "b" && g.nodes[2].id == "u";
    assert CallWalk(g, 1, 2, 1, 1) && CallWalk(g, 0, 1, 0, 1) && CallWalk(g, 1, 2, 0, 2);
    assert !Walk(g, 2, 0, 1);
  }

  lemma FirstStartNeedNotBeNearest(r: seq<ImpactedSymbol>, x: ImpactedSymbol)
    requires UnionOf(TwoStarts(), Query(["a", "b"], 5, false), 2, r) && x in r && x.symbol.id == "u"
    ensures TwoStarts().Valid() && x.distance == 2 && IsDistance(TwoStarts(), 2, 1, 1)
  {
    var g, q := TwoStarts(), Query(["a", "b"], 5, false);
    TwoStartsWalks();
    assert BoundedCaller(g, 2, 0, 5);
    assert Impacts(g, q, q.starts[0], 2);
    assert FromFirst(g, q, 2, x);
    assert ReportedBy(g, q, "a", 2, x);
    hide Walk;
  }

  // `n` implements `s` and calls it through `m`: starting from `s`, it is ranked at distance 2 although it is a direct
  // implementor.
  function CallingImplementor(): CodeGraph {
    CodeGraph([SymbolNode("s", "s"), SymbolNode("m", "m"), SymbolNode("n", "n")],
              [Edge(2, 0, EdgeKind.Implements), Edge(2, 1, EdgeKind.Calls), Edge(1, 0, EdgeKind.Calls)],
              map["s" := 0, "m" := 1, "n" := 2])
  }

  lemma CallingImplementorWalks()
    ensures CallingImplementor().Valid() && IsDistance(CallingImplementor(), 2, 0, 2)
    ensures Implements(CallingImplementor(), 2, 0)
  {
    var g := CallingImplementor();
    assert g.nodes[0].id == "s" && g.nodes[1].id == "m" && g.nodes[2].id == "n";
    assert CallWalk(g, 2, 1, 0, 1) && CallWalk(g, 1, 2, 0, 2);
    assert !Walk(g, 2, 0, 1) && !Walk(g, 2, 0, 0);
    assert g.edges[0] == Edge(2, 0, EdgeKind.Implements);
  }

  lemma ImplementorListedAsCaller(r: seq<ImpactedSymbol>, x: ImpactedSymbol)
    requires UnionOf(CallingImplementor(), Query(["s"], 5, true), 1, r) && x in r && x.symbol.id == "n"
    ensures x.distance == 2 && IsNearer(CallingImplementor(), Query(["s"], 5, true), "s", 2, x.distance)
  {
    var g, q := CallingImplementor(), Query(["s"], 5, true);
    CallingImplementorWalks();
    assert BoundedCaller(g, 2, 0, 5);
    assert FromFirst(g, q, 1, x);
    assert ReportedBy(g, q, "s", 2, x);
    hide Walk;
  }
}
