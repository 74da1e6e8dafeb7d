/** Impact analysis over a code graph: crates/crytex-doc/src/impact.rs. */
module Impact {
  import opened Numbers
  import opened CodeGraphs
  import opened CallChains
  import opened Ranking

  // ----- the search -----

  type Distances = map<NodeIndex, (nat, nat)>

  // Every symbol found so far carries its exact distance, within the bound.
  ghost predicate Exact(g: CodeGraph, start: NodeIndex, maxDepth: nat, found: Distances) {
    && start in found && found[start].0 == 0
    && forall n :: n in found ==>
         && n < |g.nodes| && found[n].0 <= maxDepth && found[n].0 < |found|
         && IsDistance(g, n, start, found[n].0)
  }

  // The queue holds symbols once each, by non-decreasing depth, and spans at most two levels.
  ghost predicate Levelled(found: Distances, queue: seq<(NodeIndex, nat)>, depth: nat) {
    && (forall i :: 0 <= i < |queue| ==>
          && queue[i].0 in found && found[queue[i].0].0 == queue[i].1 && depth <= queue[i].1 <= depth + 1)
    && (forall i, j :: 0 <= i < j < |queue| ==> queue[i].1 <= queue[j].1 && queue[i].0 != queue[j].0)
  }

  ghost predicate Queued(queue: seq<(NodeIndex, nat)>, n: NodeIndex) {
    exists i :: 0 <= i < |queue| && queue[i].0 == n
  }

  // `scanned` are the Calls edges looked at so far; both their ends have been found.
  ghost predicate ScannedFound(g: CodeGraph, found: Distances, scanned: set<nat>) {
    forall e :: e in scanned ==> g.IsCall(e) && g.edges[e].source in found && g.edges[e].target in found
  }

  ghost predicate AllScanned(g: CodeGraph, scanned: set<nat>, n: NodeIndex) {
    forall e :: 0 <= e < |g.edges| && g.IsCall(e) && g.edges[e].target == n ==> e in scanned
  }

  // A symbol that has left the queue below the bound has had all its callers looked at.
  ghost predicate Finished(g: CodeGraph, maxDepth: nat, found: Distances, queue: seq<(NodeIndex, nat)>, scanned: set<nat>) {
    forall n :: n in found && found[n].0 < maxDepth && !Queued(queue, n) ==> AllScanned(g, scanned, n)
  }

  // The scanned edges that close a chain of the recorded distance of `u`.
  ghost function Tight(g: CodeGraph, found: Distances, scanned: set<nat>, u: NodeIndex): set<nat> {
    set e | e in scanned && e < |g.edges| && g.edges[e].source == u && g.edges[e].target in found && u in found
            && found[g.edges[e].target].0 + 1 == found[u].0
  }

  ghost predicate Counted(g: CodeGraph, start: NodeIndex, found: Distances, scanned: set<nat>) {
    forall u :: u in found && u != start ==> found[u].1 == |Tight(g, found, scanned, u)|
  }

  // If everything nearer than `depth` has had its callers looked at, then every symbol with a chain of
  // at most `depth` calls has been found, at no more than the length of that chain.
  lemma {:induction false} FoundUpTo(g: CodeGraph, start: NodeIndex, maxDepth: nat, found: Distances,
                                     scanned: set<nat>, depth: nat, u: NodeIndex, k: nat)
    requires g.Valid() && Exact(g, start, maxDepth, found) && ScannedFound(g, found, scanned)
    requires forall n :: n in found && found[n].0 < depth ==> AllScanned(g, scanned, n)
    requires k <= depth && Walk(g, u, start, k)
    ensures u in found && found[u].0 <= k
    decreases k
  {
    if k > 0 {
      var e :| 0 <= e < |g.edges| && CallWalk(g, e, u, start, k);
      var v := g.edges[e].target;
      FoundUpTo(g, start, maxDepth, found, scanned, depth, v, k - 1);
      assert e in scanned;
    }
  }

  // A caller first met while looking at a symbol of depth `depth` is exactly one step further.
  lemma NewCallerDistance(g: CodeGraph, start: NodeIndex, maxDepth: nat, found: Distances, scanned: set<nat>,
                          depth: nat, e: nat)
    requires g.Valid() && Exact(g, start, maxDepth, found) && ScannedFound(g, found, scanned)
    requires forall n :: n in found && found[n].0 < depth ==> AllScanned(g, scanned, n)
    requires g.IsCall(e) && g.edges[e].target in found && found[g.edges[e].target].0 == depth
    requires g.edges[e].source !in found
    ensures IsDistance(g, g.edges[e].source, start, depth + 1)
  {
    var u := g.edges[e].source;
    assert CallWalk(g, e, u, start, depth + 1);
    forall k: nat | k < depth + 1
      ensures !Walk(g, u, start, k)
    {
      if Walk(g, u, start, k) {
        FoundUpTo(g, start, maxDepth, found, scanned, depth, u, k);
      }
    }
  }

  lemma {:induction false} FewNodes(s: set<nat>, n: nat)
    requires forall x :: x in s ==> x < n
    ensures |s| <= n
  {
    if n == 0 {
      assert s == {};
    } else {
      FewNodes(s - {n - 1}, n - 1);
      assert s <= (s - {n - 1}) + {n - 1};
    }
  }

  // Recording one more edge changes the tight edges of its source only, and only when it closes.
  lemma TightAfter(g: CodeGraph, found: Distances, found': Distances, scanned: set<nat>, e: nat, u: NodeIndex)
    requires ScannedFound(g, found, scanned) && g.IsCall(e) && e !in scanned
    requires g.edges[e].target in found && u in found'
    requires forall n :: n in found ==> n in found' && found'[n].0 == found[n].0
    requires u in found || u == g.edges[e].source
    ensures Tight(g, found', scanned + {e}, u) ==
            Tight(g, found, scanned, u) +
            if u == g.edges[e].source && found[g.edges[e].target].0 + 1 == found'[u].0 then {e} else {}
    ensures u !in found ==> Tight(g, found, scanned, u) == {}
  {
  }

  // Every symbol found was pushed exactly once, by non-decreasing depth.
  ghost predicate History(found: Distances, pushed: seq<(NodeIndex, nat)>, depth: nat) {
    && (forall i :: 0 <= i < |pushed| ==>
          pushed[i].0 in found && found[pushed[i].0].0 == pushed[i].1 && pushed[i].1 <= depth + 1)
    && (forall i, j :: 0 <= i < j < |pushed| ==> pushed[i].1 <= pushed[j].1 && pushed[i].0 != pushed[j].0)
    && (forall n :: n in found ==> Queued(pushed, n))
  }

  // The state while the callers of `node` are being looked at.
  ghost predicate Scanning(g: CodeGraph, start: NodeIndex, maxDepth: nat, found: Distances, queue: seq<(NodeIndex, nat)>,
                           scanned: set<nat>, node: NodeIndex, depth: nat)
  {
    && Exact(g, start, maxDepth, found) && Levelled(found, queue, depth)
    && ScannedFound(g, found, scanned) && Counted(g, start, found, scanned)
    && node in found && found[node].0 == depth < maxDepth && !Queued(queue, node)
    && (forall n :: n in found && found[n].0 < maxDepth && !Queued(queue, n) && n != node ==> AllScanned(g, scanned, n))
  }

  // What the distances become after one Calls edge into a symbol of depth `depth`.
  ghost function Relaxed(found: Distances, predecessor: NodeIndex, depth: nat): Distances {
    if predecessor !in found then found[predecessor := (depth + 1, 1)]
    else if found[predecessor].0 == depth + 1 then found[predecessor := (depth + 1, found[predecessor].1 + 1)]
    else found
  }

  ghost function Enqueued(found: Distances, queue: seq<(NodeIndex, nat)>, predecessor: NodeIndex, depth: nat): seq<(NodeIndex, nat)> {
    if predecessor in found then queue else queue + [(predecessor, depth + 1)]
  }

  lemma QueuedAfter(queue: seq<(NodeIndex, nat)>, entry: (NodeIndex, nat), n: NodeIndex)
    ensures Queued(queue + [entry], n) <==> Queued(queue, n) || n == entry.0
  {
    if Queued(queue, n) {
      var i :| 0 <= i < |queue| && queue[i].0 == n;
      assert (queue + [entry])[i].0 == n;
    }
    assert (queue + [entry])[|queue|] == entry;
  }

  lemma RelaxedExact(g: CodeGraph, start: NodeIndex, maxDepth: nat, found: Distances, queue: seq<(NodeIndex, nat)>,
                     scanned: set<nat>, depth: nat, e: nat)
    requires g.Valid() && g.IsCall(e)
    requires Scanning(g, start, maxDepth, found, queue, scanned, g.edges[e].target, depth)
    ensures Exact(g, start, maxDepth, Relaxed(found, g.edges[e].source, depth))
  {
    var u := g.edges[e].source;
    if u !in found {
      NewCallerDistance(g, start, maxDepth, found, scanned, depth, e);
    }
    hide IsDistance, Levelled, ScannedFound, Counted, AllScanned, Queued;
    ExactAfter(g, start, maxDepth, found, u, depth, Relaxed(found, u, depth));
  }

  lemma ExactAfter(g: CodeGraph, start: NodeIndex, maxDepth: nat, found: Distances, u: NodeIndex, depth: nat, found': Distances)
    requires Exact(g, start, maxDepth, found) && depth < maxDepth && depth < |found| && u < |g.nodes|
    requires u !in found ==> IsDistance(g, u, start, depth + 1)
    requires found' == Relaxed(found, u, depth)
    ensures Exact(g, start, maxDepth, found')
  {
    hide IsDistance;
    assert found'.Keys == found.Keys + {u};
    assert |found'| == |found'.Keys| && |found| == |found.Keys|;
    assert |found'| == if u in found then |found| else |found| + 1;
    forall n | n in found'
      ensures n < |g.nodes| && found'[n].0 <= maxDepth && found'[n].0 < |found'| && IsDistance(g, n, start, found'[n].0)
    {
      if n == u && u !in found {
        assert found'[n].0 == depth + 1;
      } else {
        assert n in found && found'[n].0 == found[n].0;
      }
    }
  }

  lemma RelaxedCounted(g: CodeGraph, start: NodeIndex, found: Distances, scanned: set<nat>, depth: nat, e: nat)
    requires g.IsCall(e) && e !in scanned && ScannedFound(g, found, scanned) && Counted(g, start, found, scanned)
    requires g.edges[e].target in found && found[g.edges[e].target].0 == depth
    ensures ScannedFound(g, Relaxed(found, g.edges[e].source, depth), scanned + {e})
    ensures Counted(g, start, Relaxed(found, g.edges[e].source, depth), scanned + {e})
  {
    var found' := Relaxed(found, g.edges[e].source, depth);
    forall u | u in found' && u != start
      ensures found'[u].1 == |Tight(g, found', scanned + {e}, u)|
    {
      TightAfter(g, found, found', scanned, e, u);
    }
  }

  lemma RelaxedLevels(g: CodeGraph, maxDepth: nat, found: Distances, queue: seq<(NodeIndex, nat)>, scanned: set<nat>,
                      node: NodeIndex, depth: nat, e: nat)
    requires g.IsCall(e) && g.edges[e].target == node
    requires Levelled(found, queue, depth) && node in found && found[node].0 == depth && !Queued(queue, node)
    requires forall n :: n in found && found[n].0 < maxDepth && !Queued(queue, n) && n != node ==> AllScanned(g, scanned, n)
    ensures var found' := Relaxed(found, g.edges[e].source, depth);
            var queue' := Enqueued(found, queue, g.edges[e].source, depth);
            && Levelled(found', queue', depth) && !Queued(queue', node)
            && forall n :: n in found' && found'[n].0 < maxDepth && !Queued(queue', n) && n != node ==> AllScanned(g, scanned + {e}, n)
  {
    var u := g.edges[e].source;
    var found' := Relaxed(found, u, depth);
    var queue' := Enqueued(found, queue, u, depth);
    if u !in found {
      forall n
        ensures Queued(queue', n) <==> Queued(queue, n) || n == u
      {
        QueuedAfter(queue, (u, depth + 1), n);
      }
    }
  }

  lemma RelaxedScanning(g: CodeGraph, start: NodeIndex, maxDepth: nat, found: Distances, queue: seq<(NodeIndex, nat)>,
                        scanned: set<nat>, depth: nat, e: nat)
    requires g.Valid() && g.IsCall(e) && e !in scanned
    requires Scanning(g, start, maxDepth, found, queue, scanned, g.edges[e].target, depth)
    ensures Scanning(g, start, maxDepth, Relaxed(found, g.edges[e].source, depth),
                     Enqueued(found, queue, g.edges[e].source, depth), scanned + {e}, g.edges[e].target, depth)
  {
    RelaxedExact(g, start, maxDepth, found, queue, scanned, depth, e);
    RelaxedCounted(g, start, found, scanned, depth, e);
    RelaxedLevels(g, maxDepth, found, queue, scanned, g.edges[e].target, depth, e);
  }

  // The body of the inner loop for one Calls edge. A fresh entry starts at the largest usize, as in the
  // source; distances stay below the number of nodes, so `newDepth` is always smaller.
  method Relax(distances: Distances, queue: seq<(NodeIndex, nat)>, predecessor: NodeIndex, depth: nat)
    returns (distances': Distances, queue': seq<(NodeIndex, nat)>)
    requires depth + 1 < USIZE_MAX
    requires predecessor in distances ==> distances[predecessor].0 <= depth + 1
    ensures distances' == Relaxed(distances, predecessor, depth)
    ensures queue' == Enqueued(distances, queue, predecessor, depth)
  {
    var newDepth := depth + 1;
    distances' := if predecessor in distances then distances else distances[predecessor := (USIZE_MAX, 0)];
    queue' := queue;
    var entry := distances'[predecessor];
    if newDepth < entry.0 {
      distances' := distances'[predecessor := (newDepth, 1)];
      queue' := queue' + [(predecessor, newDepth)];
    } else if newDepth == entry.0 {
      distances' := distances'[predecessor := (entry.0, entry.1 + 1)];
    }
  }

  // Edges already looked at do not lead into a symbol that still waits in the queue.
  ghost predicate Apart(g: CodeGraph, queue: seq<(NodeIndex, nat)>, scanned: set<nat>) {
    forall e :: e in scanned && e < |g.edges| ==> !Queued(queue, g.edges[e].target)
  }

  // The state between two rounds of the outer loop; `level` is the depth last taken from the queue.
  ghost predicate Searching(g: CodeGraph, start: NodeIndex, maxDepth: nat, found: Distances, queue: seq<(NodeIndex, nat)>,
                            scanned: set<nat>, pushed: seq<(NodeIndex, nat)>, level: nat)
  {
    && Exact(g, start, maxDepth, found)
    && (queue != [] ==> level <= queue[0].1 && Levelled(found, queue, queue[0].1))
    && ScannedFound(g, found, scanned) && Counted(g, start, found, scanned)
    && Finished(g, maxDepth, found, queue, scanned)
    && Apart(g, queue, scanned)
    && History(found, pushed, level)
  }

  lemma RelaxedHistory(found: Distances, pushed: seq<(NodeIndex, nat)>, predecessor: NodeIndex, depth: nat)
    requires History(found, pushed, depth)
    ensures History(Relaxed(found, predecessor, depth), Enqueued(found, pushed, predecessor, depth), depth)
  {
    hide Queued;
    var found' := Relaxed(found, predecessor, depth);
    var pushed' := Enqueued(found, pushed, predecessor, depth);
    assert forall i :: 0 <= i < |pushed| ==> pushed[i].0 in found;
    forall n | n in found'
      ensures Queued(pushed', n)
    {
      if predecessor !in found {
        QueuedAfter(pushed, (predecessor, depth + 1), n);
      }
    }
  }

  lemma RelaxedApart(g: CodeGraph, start: NodeIndex, maxDepth: nat, found: Distances, queue: seq<(NodeIndex, nat)>,
                     scanned: set<nat>, depth: nat, e: nat)
    requires g.IsCall(e) && Apart(g, queue, scanned)
    requires Scanning(g, start, maxDepth, found, queue, scanned, g.edges[e].target, depth)
    ensures Apart(g, Enqueued(found, queue, g.edges[e].source, depth), scanned + {e})
  {
    var u := g.edges[e].source;
    if u !in found {
      forall n
        ensures Queued(queue + [(u, depth + 1)], n) <==> Queued(queue, n) || n == u
      {
        QueuedAfter(queue, (u, depth + 1), n);
      }
    }
  }

  // Taking the front of the queue opens its symbol for scanning.
  lemma Popped(g: CodeGraph, start: NodeIndex, maxDepth: nat, found: Distances, queue: seq<(NodeIndex, nat)>,
               scanned: set<nat>, pushed: seq<(NodeIndex, nat)>, level: nat)
    requires queue != [] && Searching(g, start, maxDepth, found, queue, scanned, pushed, level)
    ensures var (node, depth) := queue[0];
            && (forall e :: e in scanned && e < |g.edges| ==> g.edges[e].target != node)
            && Apart(g, queue[1..], scanned) && History(found, pushed, depth)
            && if depth < maxDepth then Scanning(g, start, maxDepth, found, queue[1..], scanned, node, depth)
               else Searching(g, start, maxDepth, found, queue[1..], scanned, pushed, depth)
  {
    FrontLeaves(queue);
    PoppedApart(g, queue, scanned);
    PoppedLevels(found, queue);
    assert History(found, pushed, queue[0].1);
    PoppedFinished(g, maxDepth, found, queue, scanned);
    hide Exact, Levelled, Queued, AllScanned, ScannedFound, Counted, Apart, History;
  }

  lemma PoppedApart(g: CodeGraph, queue: seq<(NodeIndex, nat)>, scanned: set<nat>)
    requires queue != [] && Apart(g, queue, scanned)
    requires forall i, j :: 0 <= i < j < |queue| ==> queue[i].0 != queue[j].0
    ensures forall e :: e in scanned && e < |g.edges| ==> g.edges[e].target != queue[0].0
    ensures Apart(g, queue[1..], scanned)
  {
    FrontLeaves(queue);
    assert Queued(queue, queue[0].0);
    hide Queued;
  }

  lemma PoppedLevels(found: Distances, queue: seq<(NodeIndex, nat)>)
    requires queue != [] && Levelled(found, queue, queue[0].1)
    ensures Levelled(found, queue[1..], queue[0].1)
    ensures queue[1..] != [] ==> queue[0].1 <= queue[1].1 && Levelled(found, queue[1..], queue[1].1)
    ensures queue[0].0 in found && found[queue[0].0].0 == queue[0].1
  {
  }

  lemma PoppedFinished(g: CodeGraph, maxDepth: nat, found: Distances, queue: seq<(NodeIndex, nat)>, scanned: set<nat>)
    requires queue != [] && Finished(g, maxDepth, found, queue, scanned)
    requires Levelled(found, queue, queue[0].1)
    ensures forall n :: n in found && found[n].0 < maxDepth && !Queued(queue[1..], n) && n != queue[0].0 ==>
      AllScanned(g, scanned, n)
    ensures queue[0].1 >= maxDepth ==> Finished(g, maxDepth, found, queue[1..], scanned)
  {
    FrontLeaves(queue);
    assert queue[0].0 in found && found[queue[0].0].0 == queue[0].1;
    hide Queued, AllScanned, Levelled;
  }

  lemma FrontLeaves(queue: seq<(NodeIndex, nat)>)
    requires queue != [] && forall i, j :: 0 <= i < j < |queue| ==> queue[i].0 != queue[j].0
    ensures forall n :: Queued(queue, n) <==> Queued(queue[1..], n) || n == queue[0].0
    ensures !Queued(queue[1..], queue[0].0)
  {
    forall n
      ensures Queued(queue, n) <==> Queued(queue[1..], n) || n == queue[0].0
    {
      if i :| 0 <= i < |queue| && queue[i].0 == n {
        assert i > 0 ==> queue[1..][i - 1].0 == n;
      }
      if i :| 0 <= i < |queue[1..]| && queue[1..][i].0 == n {
        assert queue[i + 1].0 == n;
      }
    }
  }

  // When the queue is empty, the search has found exactly the bounded callers, and the counts are those
  // of the closing edges.
  lemma Complete(g: CodeGraph, start: NodeIndex, maxDepth: nat, found: Distances, scanned: set<nat>,
                 pushed: seq<(NodeIndex, nat)>, level: nat)
    requires g.Valid() && Searching(g, start, maxDepth, found, [], scanned, pushed, level)
    ensures start in found
    ensures forall n :: n in found ==> n < |g.nodes| && found[n].0 <= maxDepth && IsDistance(g, n, start, found[n].0)
    ensures forall n :: n in found <==> Queued(pushed, n)
    ensures forall i, j :: 0 <= i < j < |pushed| ==> pushed[i].0 != pushed[j].0 && pushed[i].1 <= pushed[j].1
    ensures forall n :: n in found <==> BoundedCaller(g, n, start, maxDepth)
    ensures forall n :: n in found && n != start ==>
              found[n].0 > 0 && found[n].1 == |ClosingEdges(g, n, start, found[n].0)|
  {
    assert forall v :: v in found && found[v].0 < maxDepth ==> AllScanned(g, scanned, v);
    forall n, k: nat | k <= maxDepth && Walk(g, n, start, k)
      ensures n in found
    {
      FoundUpTo(g, start, maxDepth, found, scanned, maxDepth, n, k);
    }
    forall n | n in found && n != start
      ensures found[n].0 > 0 && found[n].1 == |ClosingEdges(g, n, start, found[n].0)|
    {
      TightIsClosing(g, start, maxDepth, found, scanned, n);
    }
  }

  lemma TightIsClosing(g: CodeGraph, start: NodeIndex, maxDepth: nat, found: Distances, scanned: set<nat>, n: NodeIndex)
    requires g.Valid() && Exact(g, start, maxDepth, found) && ScannedFound(g, found, scanned)
    requires forall v :: v in found && found[v].0 < maxDepth ==> AllScanned(g, scanned, v)
    requires n in found && n != start
    ensures found[n].0 > 0 && Tight(g, found, scanned, n) == ClosingEdges(g, n, start, found[n].0)
  {
    var d := found[n].0;
    forall e | e in ClosingEdges(g, n, start, d)
      ensures e in Tight(g, found, scanned, n)
    {
      FoundUpTo(g, start, maxDepth, found, scanned, maxDepth, g.edges[e].target, d - 1);
    }
  }

  ghost function NodeSet(n: nat): (nodes: set<NodeIndex>)
    ensures forall i: NodeIndex :: i in nodes <==> i < n
  {
    if n == 0 then {} else NodeSet(n - 1) + {n - 1}
  }

  // One round: look at every caller of `node`.
  method ScanCallers(g: CodeGraph, ghost start: NodeIndex, ghost maxDepth: nat, node: NodeIndex, depth: nat,
                     visited0: set<NodeIndex>, distances0: Distances, queue0: seq<(NodeIndex, nat)>,
                     ghost pushed0: seq<(NodeIndex, nat)>, ghost scanned0: set<nat>)
    returns (visited: set<NodeIndex>, distances: Distances, queue: seq<(NodeIndex, nat)>,
             ghost pushed: seq<(NodeIndex, nat)>, ghost scanned: set<nat>)
    requires g.Valid() && visited0 == distances0.Keys
    requires Scanning(g, start, maxDepth, distances0, queue0, scanned0, node, depth)
    requires Apart(g, queue0, scanned0) && History(distances0, pushed0, depth)
    requires forall e :: e in scanned0 && e < |g.edges| ==> g.edges[e].target != node
    ensures Scanning(g, start, maxDepth, distances, queue, scanned, node, depth)
    ensures Apart(g, queue, scanned) && History(distances, pushed, depth) && visited == distances.Keys
    ensures AllScanned(g, scanned, node)
    ensures distances0.Keys <= distances.Keys && (distances.Keys == distances0.Keys ==> queue == queue0)
  {
    hide Scanning, Apart, History;
    visited, distances, queue, pushed, scanned := visited0, distances0, queue0, pushed0, scanned0;
    var incoming := g.Incoming(node);
    assert forall j :: 0 <= j < |incoming| ==> incoming[j] in incoming;
    for i := 0 to |incoming|
      invariant Scanning(g, start, maxDepth, distances, queue, scanned, node, depth)
      invariant Apart(g, queue, scanned) && History(distances, pushed, depth) && visited == distances.Keys
      invariant forall j :: 0 <= j < i && g.IsCall(incoming[j]) ==> incoming[j] in scanned
      invariant forall j :: i <= j < |incoming| ==> incoming[j] !in scanned
      invariant distances0.Keys <= distances.Keys && (distances.Keys == distances0.Keys ==> queue == queue0)
    {
      var e := incoming[i];
      assert e in incoming;
      if g.edges[e].kind != Calls {
        continue;
      }
      var predecessor := g.edges[e].source;
      DepthFits(g, start, maxDepth, distances, queue, scanned, depth, e);
      RelaxedScanning(g, start, maxDepth, distances, queue, scanned, depth, e);
      RelaxedHistory(distances, pushed, predecessor, depth);
      RelaxedApart(g, start, maxDepth, distances, queue, scanned, depth, e);
      pushed := Enqueued(distances, pushed, predecessor, depth);
      distances, queue := Relax(distances, queue, predecessor, depth);
      scanned := scanned + {e};
      visited := visited + {predecessor};
    }
  }

  lemma DepthFits(g: CodeGraph, start: NodeIndex, maxDepth: nat, found: Distances, queue: seq<(NodeIndex, nat)>,
                  scanned: set<nat>, depth: nat, e: nat)
    requires g.Valid() && g.IsCall(e)
    requires Scanning(g, start, maxDepth, found, queue, scanned, g.edges[e].target, depth)
    ensures depth + 1 < USIZE_MAX
    ensures g.edges[e].source in found ==> found[g.edges[e].source].0 <= depth + 1
  {
    FewNodes(found.Keys, |g.nodes|);
    assert CallWalk(g, e, g.edges[e].source, start, depth + 1);
    assert Walk(g, g.edges[e].source, start, depth + 1);
  }

  // With its callers scanned, the symbol just taken from the queue is finished.
  lemma RoundDone(g: CodeGraph, start: NodeIndex, maxDepth: nat, found: Distances, queue: seq<(NodeIndex, nat)>,
                  scanned: set<nat>, pushed: seq<(NodeIndex, nat)>, node: NodeIndex, depth: nat)
    requires Scanning(g, start, maxDepth, found, queue, scanned, node, depth)
    requires Apart(g, queue, scanned) && History(found, pushed, depth) && AllScanned(g, scanned, node)
    ensures Searching(g, start, maxDepth, found, queue, scanned, pushed, depth)
    ensures found.Keys <= NodeSet(|g.nodes|)
  {
  }

  method Explore(g: CodeGraph, start: NodeIndex, maxDepth: nat)
    returns (visited: set<NodeIndex>, distances: Distances, ghost pushed: seq<(NodeIndex, nat)>)
    requires g.Valid() && start < |g.nodes| && maxDepth <= USIZE_MAX
    ensures visited == distances.Keys && start in distances
    ensures forall n :: n in distances <==> BoundedCaller(g, n, start, maxDepth)
    ensures forall n :: n in distances ==> n < |g.nodes| && distances[n].0 <= maxDepth && IsDistance(g, n, start, distances[n].0)
    ensures forall n :: n in distances && n != start ==>
              distances[n].0 > 0 && distances[n].1 == |ClosingEdges(g, n, start, distances[n].0)|
    // each symbol enters the queue exactly once, by non-decreasing depth
    ensures forall n :: n in distances <==> Queued(pushed, n)
    ensures forall i, j :: 0 <= i < j < |pushed| ==> pushed[i].0 != pushed[j].0 && pushed[i].1 <= pushed[j].1
  {
    hide Searching, Levelled, Apart, History, Scanning, IsDistance, BoundedCaller;
    visited := {start};
    var queue: seq<(NodeIndex, nat)> := [(start, 0)];
    distances := map[start := (0, 1)];
    pushed := queue;
    ghost var scanned: set<nat> := {};
    ghost var level: nat := 0;
    SearchStarts(g, start, maxDepth);

    while queue != []
      invariant Searching(g, start, maxDepth, distances, queue, scanned, pushed, level) && visited == distances.Keys
      decreases NodeSet(|g.nodes|) - distances.Keys, |queue|
    {
      Popped(g, start, maxDepth, distances, queue, scanned, pushed, level);
      var (node, depth) := queue[0];
      queue := queue[1..];
      level := depth;
      if depth < maxDepth {
        visited, distances, queue, pushed, scanned :=
          ScanCallers(g, start, maxDepth, node, depth, visited, distances, queue, pushed, scanned);
        RoundDone(g, start, maxDepth, distances, queue, scanned, pushed, node, depth);
      }
    }
    Complete(g, start, maxDepth, distances, scanned, pushed, level);
  }

  lemma SearchStarts(g: CodeGraph, start: NodeIndex, maxDepth: nat)
    requires g.Valid() && start < |g.nodes|
    ensures Searching(g, start, maxDepth, map[start := (0, 1)], [(start, 0)], {}, [(start, 0)], 0)
  {
    var queue: seq<(NodeIndex, nat)> := [(start, 0)];
    assert queue[0].0 == start;
    assert Queued(queue, start);
  }

  // ----- transitive_callers -----

  // `x` reports node `n`: a symbol other than `start`, its exact distance, and the number of Calls edges
  // from it to symbols one step closer.
  ghost predicate CallerEntry(g: CodeGraph, start: NodeIndex, maxDepth: nat, n: NodeIndex, x: ImpactedSymbol) {
    && n < |g.nodes| && n != start && x.symbol == g.nodes[n]
    && 1 <= x.distance <= maxDepth && IsDistance(g, n, start, x.distance)
    && x.pathCount == |ClosingEdges(g, n, start, x.distance)|
  }

  ghost predicate IsCallerEntry(g: CodeGraph, start: NodeIndex, maxDepth: nat, x: ImpactedSymbol) {
    x.symbol.id in g.index && CallerEntry(g, start, maxDepth, g.index[x.symbol.id], x)
  }

  // The entries are the bounded callers of `id`, each once; nothing for an unknown id.
  ghost predicate ExactCallers(g: CodeGraph, id: SymbolId, maxDepth: nat, r: seq<ImpactedSymbol>) {
    && DistinctSymbols(r)
    && (id !in g.index ==> r == [])
    && (id in g.index ==>
          && (forall x :: x in r ==> IsCallerEntry(g, g.index[id], maxDepth, x))
          && (forall n: NodeIndex :: n < |g.nodes| && n != g.index[id] && BoundedCaller(g, n, g.index[id], maxDepth) ==>
                exists x :: x in r && x.symbol == g.nodes[n]))
  }

  method TransitiveCallers(g: CodeGraph, symbolId: SymbolId, maxDepth: nat) returns (impacted: seq<ImpactedSymbol>)
    requires g.Valid() && maxDepth <= USIZE_MAX
    ensures ExactCallers(g, symbolId, maxDepth, impacted) && Ranked(impacted)
  {
    if symbolId !in g.index {
      return [];
    }
    var start := g.index[symbolId];
    var visited, distances, _ := Explore(g, start, maxDepth);
    impacted := [];
    // Hash sets are walked in no particular order.
    var rest := visited - {start};
    while rest != {}
      invariant rest <= visited - {start}
      invariant DistinctSymbols(impacted)
      invariant forall x :: x in impacted ==> IsCallerEntry(g, start, maxDepth, x) && g.index[x.symbol.id] !in rest
      invariant forall n :: n in visited && n != start && n !in rest ==> exists x :: x in impacted && x.symbol == g.nodes[n]
      decreases rest
    {
      var n :| n in rest;
      rest := rest - {n};
      var (distance, pathCount) := distances[n];
      var entry := ImpactedSymbol(g.nodes[n], distance, pathCount);
      assert CallerEntry(g, start, maxDepth, n, entry);
      ghost var before := impacted;
      impacted := impacted + [entry];
      assert entry in impacted && forall x :: x in before ==> x in impacted;
    }
    SortKeepsEntries(impacted);
    impacted := SortByRank(impacted);
  }

  // Two exact answers hold the same entries: the walk order of the hash set does not show, except among
  // entries of equal distance and name.
  lemma CallersDetermined(g: CodeGraph, id: SymbolId, maxDepth: nat, r: seq<ImpactedSymbol>, r': seq<ImpactedSymbol>)
    requires g.Valid() && ExactCallers(g, id, maxDepth, r) && ExactCallers(g, id, maxDepth, r')
    ensures multiset(r) == multiset(r')
  {
    forall x
      ensures multiset(r)[x] == multiset(r')[x]
    {
      if x in r {
        CallersAgree(g, id, maxDepth, r, r', x);
      }
      if x in r' {
        CallersAgree(g, id, maxDepth, r', r, x);
      }
      AtMostOnce(r, x);
      AtMostOnce(r', x);
    }
  }

  lemma CallersAgree(g: CodeGraph, id: SymbolId, maxDepth: nat, r: seq<ImpactedSymbol>, r': seq<ImpactedSymbol>, x: ImpactedSymbol)
    requires g.Valid() && ExactCallers(g, id, maxDepth, r) && ExactCallers(g, id, maxDepth, r') && x in r
    ensures x in r'
  {
    var start, n := g.index[id], g.index[x.symbol.id];
    assert IsCallerEntry(g, start, maxDepth, x);
    assert BoundedCaller(g, n, start, maxDepth);
    var y :| y in r' && y.symbol == g.nodes[n];
    assert IsCallerEntry(g, start, maxDepth, y);
    assert x.distance == y.distance by {
      assert Walk(g, n, start, x.distance) && Walk(g, n, start, y.distance);
    }
  }

  // The documentation calls `path_count` the number of distinct paths. It is that number exactly when no
  // symbol nearer on the way has more than one call that leads closer.
  lemma PathCountIsPathsIff(g: CodeGraph, start: NodeIndex, maxDepth: nat, n: NodeIndex, x: ImpactedSymbol)
    requires CallerEntry(g, start, maxDepth, n, x)
    ensures x.pathCount <= ShortestChains(g, n, start, x.distance)
    ensures x.pathCount == ShortestChains(g, n, start, x.distance) <==>
            forall e :: e in ClosingEdges(g, n, start, x.distance) ==>
              Unbranched(g, g.edges[e].target, start, x.distance - 1)
  {
    var closing := ClosingEdges(g, n, start, x.distance);
    assert closing == set e | e in closing && e < |g.edges|;
    CountIsChainsIff(g, n, start, x.distance, |g.edges|);
    forall e | e in closing
      ensures ShortestChains(g, g.edges[e].target, start, x.distance - 1) == 1 <==>
              Unbranched(g, g.edges[e].target, start, x.distance - 1)
    {
      SingleChainIff(g, g.edges[e].target, start, x.distance - 1);
    }
  }

  // `d` calls `c`, `c` calls `a` and `b`, and both call `s`: one closing edge, two shortest chains.
  function Diamond(): CodeGraph {
    CodeGraph([SymbolNode("s", "s"), SymbolNode("a", "a"), SymbolNode("b", "b"), SymbolNode("c", "c"), SymbolNode("d", "d")],
              [Edge(1, 0, Calls), Edge(2, 0, Calls), Edge(3, 1, Calls), Edge(3, 2, Calls), Edge(4, 3, Calls)],
              map["s" := 0, "a" := 1, "b" := 2, "c" := 3, "d" := 4])
  }

  lemma DiamondIsValid()
    ensures Diamond().Valid() && "s" in Diamond().index && Diamond().index["s"] == 0 && Diamond().index["d"] == 4
  {
    var g := Diamond();
    assert g.nodes[0].id == "s" && g.nodes[1].id == "a" && g.nodes[2].id == "b" && g.nodes[3].id == "c" && g.nodes[4].id == "d";
    assert g.index["s"] == 0 && g.index["a"] == 1 && g.index["b"] == 2 && g.index["c"] == 3 && g.index["d"] == 4;
  }

  // Edge `e` of the diamond begins a chain of k calls from `u` to `s`.
  predicate Begins(e: nat, u: NodeIndex, k: nat) {
    e < 5 && u == [1, 2, 3, 3, 4][e] && k == [1, 1, 2, 2, 3][e]
  }

  lemma DiamondEdge(e: nat)
    requires e < 5
    ensures |Diamond().edges| == 5 && Diamond().IsCall(e)
    ensures Diamond().edges[e].source == [1, 2, 3, 3, 4][e] && Diamond().edges[e].target == [0, 0, 1, 2, 3][e]
  {
  }

  lemma DiamondWalks(u: NodeIndex, k: nat)
    requires u < 5
    ensures Walk(Diamond(), u, 0, k) <==> k == [0, 1, 1, 2, 3][u]
    decreases k
  {
    if k > 0 {
      DiamondEdge(0);
      hide Diamond;
      forall e: nat | e < 5
        ensures CallWalk(Diamond(), e, u, 0, k) <==> Begins(e, u, k)
      {
        DiamondEdge(e);
        DiamondWalks(Diamond().edges[e].target, k - 1);
        hide Walk;
      }
      assert Walk(Diamond(), u, 0, k) <==> exists e :: 0 <= e < |Diamond().edges| && CallWalk(Diamond(), e, u, 0, k);
      hide Walk, CallWalk;
      assert k == [0, 1, 1, 2, 3][u] ==> Begins(if u < 4 then u - 1 else u, u, k);
    }
  }

  lemma DiamondClosingEdges()
    ensures var g := Diamond();
            && ClosingEdges(g, 4, 0, 3) == {4} && ClosingEdges(g, 3, 0, 2) == {2, 3}
            && ClosingEdges(g, 2, 0, 1) == {1} && ClosingEdges(g, 1, 0, 1) == {0}
            && IsDistance(g, 4, 0, 3)
  {
    var g := Diamond();
    forall u: NodeIndex, d: nat | u < 5
      ensures Walk(g, u, 0, d) <==> d == [0, 1, 1, 2, 3][u]
    {
      DiamondWalks(u, d);
    }
    forall u: NodeIndex, d: nat | u < 5
      ensures IsDistance(g, u, 0, d) <==> d == [0, 1, 1, 2, 3][u]
    {
    }
  }

  lemma DiamondChains()
    ensures ShortestChains(Diamond(), 4, 0, 3) == 2
  {
    var g := Diamond();
    DiamondClosingEdges();
    assert ShortestChains(g, 1, 0, 1) == 1 by {
      assert ChainsThrough(g, 1, 0, 1, 1) == 1;
      assert ChainsThrough(g, 1, 0, 1, 2) == 1;
      assert ChainsThrough(g, 1, 0, 1, 3) == 1;
      assert ChainsThrough(g, 1, 0, 1, 4) == 1;
    }
    assert ShortestChains(g, 2, 0, 1) == 1 by {
      assert ChainsThrough(g, 2, 0, 1, 1) == 0;
      assert ChainsThrough(g, 2, 0, 1, 2) == 1;
      assert ChainsThrough(g, 2, 0, 1, 3) == 1;
      assert ChainsThrough(g, 2, 0, 1, 4) == 1;
    }
    assert ShortestChains(g, 3, 0, 2) == 2 by {
      assert ChainsThrough(g, 3, 0, 2, 1) == 0;
      assert ChainsThrough(g, 3, 0, 2, 2) == 0;
      assert ChainsThrough(g, 3, 0, 2, 3) == 1;
      assert ChainsThrough(g, 3, 0, 2, 4) == 2;
    }
    assert ChainsThrough(g, 4, 0, 3, 1) == 0;
    assert ChainsThrough(g, 4, 0, 3, 2) == 0;
    assert ChainsThrough(g, 4, 0, 3, 3) == 0;
    assert ChainsThrough(g, 4, 0, 3, 4) == 0;
  }

  lemma PathCountIsNotPaths(maxDepth: nat, r: seq<ImpactedSymbol>, x: ImpactedSymbol)
    requires maxDepth >= 3 && ExactCallers(Diamond(), "s", maxDepth, r)
    requires x in r && x.symbol.id == "d"
    ensures Diamond().Valid() && x.pathCount == 1 && ShortestChains(Diamond(), 4, 0, x.distance) == 2
  {
    DiamondIsValid();
    DiamondClosingEdges();
    DiamondChains();
    hide ClosingEdges, ShortestChains, Walk, Diamond;
    assert IsCallerEntry(Diamond(), 0, maxDepth, x);
    assert Walk(Diamond(), 4, 0, 3) && Walk(Diamond(), 4, 0, x.distance);
  }
}
