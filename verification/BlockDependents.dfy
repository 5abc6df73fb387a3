/** The breadth-first walk that blocks what depends on a failed node. */
module BlockDependents {
  import opened Graph
  import opened SchedulerModel
  import opened SchedulerSafety

  function Dependents(dependencyMap: map<NodeId, seq<NodeId>>, d: NodeId): seq<NodeId> {
    if d in dependencyMap then dependencyMap[d] else []
  }

  /** The reverse dependency map, which keeps the order of the definition. Nodes nobody depends on may be missing. */
  ghost predicate IsDependencyMap(g: Dag, ids: seq<NodeId>, dependencyMap: map<NodeId, seq<NodeId>>) {
    forall d :: Dependents(dependencyMap, d) == Listed(g, ids, d)
  }

  /** The inner loop: one node joins the dependents of everything it lists, once each. */
  method AddNode(node: NodeDef, before: map<NodeId, seq<NodeId>>) returns (dependencyMap: map<NodeId, seq<NodeId>>)
    requires forall d :: node.id !in Dependents(before, d)
    ensures forall d :: Dependents(dependencyMap, d) == Dependents(before, d) + if d in node.deps then [node.id] else []
  {
    dependencyMap := before;
    for m := 0 to |node.deps|
      invariant forall d ::
        Dependents(dependencyMap, d) == Dependents(before, d) + if d in node.deps[..m] then [node.id] else []
    {
      var depId := node.deps[m];
      assert node.deps[..m + 1] == node.deps[..m] + [depId];
      if depId !in dependencyMap {
        dependencyMap := dependencyMap[depId := []];
      }
      if node.id !in dependencyMap[depId] {
        dependencyMap := dependencyMap[depId := dependencyMap[depId] + [node.id]];
      }
    }
    assert node.deps[..|node.deps|] == node.deps;
  }

  method BuildDependencyMap(nodes: seq<NodeDef>) returns (dependencyMap: map<NodeId, seq<NodeId>>)
    requires UniqueIds(nodes)
    ensures IsDependencyMap(DagOf(nodes), IdList(nodes), dependencyMap)
  {
    ghost var g, ids := DagOf(nodes), IdList(nodes);
    dependencyMap := map[];
    for k := 0 to |nodes|
      invariant IsDependencyMap(g, ids[..k], dependencyMap)
    {
      forall d ensures nodes[k].id !in Dependents(dependencyMap, d) { NotYetListed(nodes, k, d); }
      ghost var was := dependencyMap;
      dependencyMap := AddNode(nodes[k], dependencyMap);
      assert ids[..k + 1] == ids[..k] + [nodes[k].id];
      forall d ensures Dependents(dependencyMap, d) == Listed(g, ids[..k + 1], d) { ListedNext(nodes, k, d); }
    }
    assert ids[..|nodes|] == ids;
  }

  lemma NotYetListed(nodes: seq<NodeDef>, k: nat, d: NodeId)
    requires UniqueIds(nodes) && k < |nodes|
    ensures nodes[k].id !in Listed(DagOf(nodes), IdList(nodes)[..k], d)
  {
    if nodes[k].id in Listed(DagOf(nodes), IdList(nodes)[..k], d) {
      ListedWithin(DagOf(nodes), IdList(nodes)[..k], d, nodes[k].id);
    }
  }

  lemma ListedNext(nodes: seq<NodeDef>, k: nat, d: NodeId)
    requires UniqueIds(nodes) && k < |nodes|
    ensures Listed(DagOf(nodes), IdList(nodes)[..k] + [nodes[k].id], d)
         == Listed(DagOf(nodes), IdList(nodes)[..k], d) + if d in nodes[k].deps then [nodes[k].id] else []
  {
    FindUnique(nodes, k);
    assert nodes[k].id in Ids(nodes);
    ListedSnoc(DagOf(nodes), IdList(nodes)[..k], nodes[k].id, d);
  }

  /** A status map part of the way through the walk: some blockable nodes are blocked already. */
  ghost predicate PartBlocked(g: Dag, before: map<NodeId, Status>, status: map<NodeId, Status>, n: NodeId) {
    && status.Keys == before.Keys
    && forall x | x in before ::
         status[x] == before[x] || (status[x] == Blocked && before[x] == Pending && Blockable(g, before, x, n))
  }

  /** A node the walk has to look at: the failed node and everything newly blocked. */
  ghost predicate Reached(before: map<NodeId, Status>, status: map<NodeId, Status>, n: NodeId, y: NodeId) {
    y == n || (y in before && y in status && before[y] == Pending && status[y] == Blocked)
  }

  /** Looked at: no dependent of `y` is left pending. */
  ghost predicate Spread(g: Dag, status: map<NodeId, Status>, y: NodeId) {
    forall x | x in g && y in g[x].deps :: x in status ==> status[x] != Pending
  }

  lemma {:induction false} SpreadCoversPath(g: Dag, before: map<NodeId, Status>, status: map<NodeId, Status>,
                                           n: NodeId, p: seq<NodeId>, x: NodeId)
    requires PartBlocked(g, before, status, n) && PendingPath(g, before, p, x, n)
    requires forall y | Reached(before, status, n, y) :: Spread(g, status, y)
    ensures status[x] == Blocked
    decreases |p|
  {
    assert p[0] in g && p[0 + 1] in g[p[0]].deps;
    var y := p[1];
    if |p| > 2 {
      TailIsPath(g, p);
      var q := p[1..];
      assert forall i | 0 <= i < |q| :: q[i] == p[i + 1];
      assert PendingPath(g, before, q, y, n);
      SpreadCoversPath(g, before, status, n, q, y);
    }
    assert Reached(before, status, n, y);
  }

  lemma SpreadIsMarkBlocked(g: Dag, before: map<NodeId, Status>, status: map<NodeId, Status>, n: NodeId)
    requires PartBlocked(g, before, status, n)
    requires forall y | Reached(before, status, n, y) :: Spread(g, status, y)
    ensures status == MarkBlocked(g, before, n)
  {
    forall x | x in before ensures status[x] == if Blockable(g, before, x, n) then Blocked else before[x] {
      if Blockable(g, before, x, n) {
        var p :| PendingPath(g, before, p, x, n);
        SpreadCoversPath(g, before, status, n, p, x);
      }
    }
  }

  /** Block the pending ones among `dependents`. */
  ghost predicate DirectlyBlocked(status: map<NodeId, Status>, status': map<NodeId, Status>, dependents: set<NodeId>) {
    && status'.Keys == status.Keys
    && forall x | x in status ::
         status'[x] == if x in dependents && status[x] == Pending then Blocked else status[x]
  }

  /** The inner loop: block the pending dependents of one node and queue them. */
  method BlockDirect(dependents: seq<NodeId>, status: map<NodeId, Status>, queue: seq<NodeId>)
    returns (status': map<NodeId, Status>, queue': seq<NodeId>)
    ensures DirectlyBlocked(status, status', DepSet(dependents))
    ensures forall x :: x in queue' <==> x in queue || (x in dependents && x in status && status[x] == Pending)
    ensures queue' == queue || exists x :: x in dependents && x in status && status[x] == Pending
  {
    status', queue' := status, queue;
    for k := 0 to |dependents|
      invariant DirectlyBlocked(status, status', DepSet(dependents[..k]))
      invariant forall x :: x in queue' <==> x in queue || (x in dependents[..k] && x in status && status[x] == Pending)
      invariant queue' == queue || exists x :: x in dependents && x in status && status[x] == Pending
    {
      var depId := dependents[k];
      assert dependents[..k + 1] == dependents[..k] + [depId];
      if depId in status' && status'[depId] == Pending {
        status' := status'[depId := Blocked];
        queue' := queue' + [depId];
      }
    }
    assert dependents[..|dependents|] == dependents;
  }

  lemma DirectKeepsPart(g: Dag, before: map<NodeId, Status>, status: map<NodeId, Status>, status': map<NodeId, Status>,
                        dependents: set<NodeId>, n: NodeId, current: NodeId)
    requires PartBlocked(g, before, status, n) && Reached(before, status, n, current)
    requires forall x :: x in dependents <==> x in g && current in g[x].deps
    requires DirectlyBlocked(status, status', dependents)
    ensures PartBlocked(g, before, status', n) && Spread(g, status', current)
    ensures forall y | Spread(g, status, y) :: Spread(g, status', y)
    ensures forall y :: Reached(before, status', n, y) <==>
      Reached(before, status, n, y) || (y in dependents && y in status && status[y] == Pending)
  {
    forall x | x in dependents && x in status && status[x] == Pending ensures Blockable(g, before, x, n) {
      if current == n { BlockableDirect(g, before, x, n); } else { BlockableStep(g, before, x, current, n); }
    }
  }

  lemma PendingShrinks(status: map<NodeId, Status>, status': map<NodeId, Status>, dependents: set<NodeId>)
    requires DirectlyBlocked(status, status', dependents)
    ensures PendingSet(status') <= PendingSet(status)
    ensures (exists x :: x in dependents && x in status && status[x] == Pending)
      ==> PendingSet(status') < PendingSet(status)
  {
    if x :| x in dependents && x in status && status[x] == Pending {
      assert x in PendingSet(status) && x !in PendingSet(status');
    }
  }

  lemma DependentsAre(g: Dag, ids: seq<NodeId>, dependencyMap: map<NodeId, seq<NodeId>>, d: NodeId)
    requires ListsOnce(ids, g.Keys) && IsDependencyMap(g, ids, dependencyMap)
    ensures forall x :: x in DepSet(Dependents(dependencyMap, d)) <==> x in g && d in g[x].deps
  {
    forall x ensures x in Dependents(dependencyMap, d) <==> x in g && d in g[x].deps { ListedMembers(g, ids, d, x); }
  }

  /** One node is taken from the queue: its pending dependents are blocked and queued. */
  method BlockNext(ghost g: Dag, ghost ids: seq<NodeId>, dependencyMap: map<NodeId, seq<NodeId>>,
                   ghost before: map<NodeId, Status>, status: map<NodeId, Status>, queue: seq<NodeId>,
                   ghost nodeId: NodeId, current: NodeId)
    returns (status': map<NodeId, Status>, queue': seq<NodeId>)
    requires ListsOnce(ids, g.Keys) && IsDependencyMap(g, ids, dependencyMap)
    requires PartBlocked(g, before, status, nodeId) && Reached(before, status, nodeId, current)
    ensures PartBlocked(g, before, status', nodeId) && Spread(g, status', current)
    ensures forall y | Spread(g, status, y) :: Spread(g, status', y)
    ensures forall y :: Reached(before, status', nodeId, y) && y !in queue' ==> Reached(before, status, nodeId, y)
    ensures forall y :: y in queue' ==> y in queue || Reached(before, status', nodeId, y)
    ensures forall y :: y in queue ==> y in queue'
    ensures forall y :: Reached(before, status, nodeId, y) ==> Reached(before, status', nodeId, y)
    ensures PendingSet(status') < PendingSet(status) || (PendingSet(status') == PendingSet(status) && queue' == queue)
  {
    var dependents := Dependents(dependencyMap, current);
    DependentsAre(g, ids, dependencyMap, current);
    status', queue' := BlockDirect(dependents, status, queue);
    DirectKeepsPart(g, before, status, status', DepSet(dependents), nodeId, current);
    PendingShrinks(status, status', DepSet(dependents));
  }

  /** Blocks exactly the nodes reached from `nodeId` through pending dependents. */
  method MarkBlockedDependents(ghost g: Dag, ghost ids: seq<NodeId>, dependencyMap: map<NodeId, seq<NodeId>>,
                               before: map<NodeId, Status>, nodeId: NodeId)
    returns (status: map<NodeId, Status>)
    requires ListsOnce(ids, g.Keys) && IsDependencyMap(g, ids, dependencyMap)
    ensures status == MarkBlocked(g, before, nodeId)
  {
    status := before;
    var visited: set<NodeId> := {};
    var queue := [nodeId];
    while |queue| > 0
      invariant PartBlocked(g, before, status, nodeId)
      invariant forall y :: y in queue ==> Reached(before, status, nodeId, y)
      invariant forall y :: Reached(before, status, nodeId, y) ==> y in queue || y in visited
      invariant forall y | y in visited :: Spread(g, status, y)
      decreases PendingSet(status), |queue|
    {
      var current := queue[0];
      assert queue == [current] + queue[1..];
      queue := queue[1..];
      if current in visited { continue; }
      visited := visited + {current};
      status, queue := BlockNext(g, ids, dependencyMap, before, status, queue, nodeId, current);
    }
    SpreadIsMarkBlocked(g, before, status, nodeId);
  }
}
