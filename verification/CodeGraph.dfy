/** The property graph of crates/crytex-doc/src/graph/mod.rs: symbols, directed relations, and the
    index from symbol ids to nodes. */
module CodeGraphs {

  type SymbolId = string
  type NodeIndex = nat

  datatype EdgeKind = Contains | Defines | Calls | Implements | Inherits | Imports | References

  datatype SymbolNode = SymbolNode(id: SymbolId, name: string)

  datatype Edge = Edge(source: NodeIndex, target: NodeIndex, kind: EdgeKind)

  // petgraph numbers nodes with 32 bits and keeps the largest number as its end marker.
  const MAX_NODES: nat := 0xFFFF_FFFF

  datatype CodeGraph = CodeGraph(nodes: seq<SymbolNode>, edges: seq<Edge>, index: map<SymbolId, NodeIndex>) {

    ghost predicate Valid() {
      && |nodes| <= MAX_NODES
      && (forall e :: 0 <= e < |edges| ==> edges[e].source < |nodes| && edges[e].target < |nodes|)
      && (forall id :: id in index ==> index[id] < |nodes| && nodes[index[id]].id == id)
      && (forall n :: 0 <= n < |nodes| ==> nodes[n].id in index && index[nodes[n].id] == n)
    }

    predicate IsCall(e: nat) {
      e < |edges| && edges[e].kind == Calls
    }

    // The edges into `node` among the first `k`, newest first: the order in which petgraph walks its
    // incoming list.
    function IncomingAmong(node: NodeIndex, k: nat): (r: seq<nat>)
      requires k <= |edges|
      ensures forall e :: e in r <==> 0 <= e < k && edges[e].target == node
      ensures forall i, j :: 0 <= i < j < |r| ==> r[i] > r[j]
    {
      if k == 0 then []
      else
        var older := IncomingAmong(node, k - 1);
        assert forall i :: 0 <= i < |older| ==> older[i] in older;
        if edges[k - 1].target == node then [k - 1] + older else older
    }

    function Incoming(node: NodeIndex): seq<nat> {
      IncomingAmong(node, |edges|)
    }
  }

  datatype Command =
    | AddSymbol(node: SymbolNode)
    | AddRelation(source: NodeIndex, target: NodeIndex, kind: EdgeKind)

  // `add_symbol` returns the existing node for a known id; petgraph refuses an edge between nodes that
  // do not exist and a node past its index range.
  function Apply(g: CodeGraph, c: Command): CodeGraph {
    match c
    case AddSymbol(node) =>
      if node.id in g.index || |g.nodes| >= MAX_NODES then g
      else CodeGraph(g.nodes + [node], g.edges, g.index[node.id := |g.nodes|])
    case AddRelation(source, target, kind) =>
      if source < |g.nodes| && target < |g.nodes| then g.(edges := g.edges + [Edge(source, target, kind)])
      else g
  }

  function Build(commands: seq<Command>): CodeGraph {
    if commands == [] then CodeGraph([], [], map[])
    else Apply(Build(commands[..|commands| - 1]), commands[|commands| - 1])
  }

  // Whatever the order of additions, the graph is well formed and no two nodes share an id.
  lemma {:induction false} BuiltGraphsAreValid(commands: seq<Command>)
    ensures Build(commands).Valid()
    ensures forall m, n :: 0 <= m < n < |Build(commands).nodes| ==> Build(commands).nodes[m].id != Build(commands).nodes[n].id
  {
    if commands != [] {
      BuiltGraphsAreValid(commands[..|commands| - 1]);
    }
  }
}
