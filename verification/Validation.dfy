/** Graph validation: the checks made before a graph may run, including the depth-first search for
    dependency cycles. */
module Validation {
  import opened Graph

  datatype GraphError = NoNodes | SchemaError | DuplicateId(id: NodeId)
                      | UnknownDependency(node: NodeId, dep: NodeId) | CycleFound | NoEntryNodes

  datatype Result<+T, +E> = Ok(value: T) | Err(error: E)

  /** Everything a search can mark: node ids and the ids they mention. */
  ghost function Universe(g: Dag): set<NodeId> {
    g.Keys + (set n, d | n in g && d in g[n].deps :: d)
  }

  /** The two mark sets of the search. `rank` and `clock` record, for the proof only, the order in
      which nodes were left for good. */
  class CycleSearch {
    const table: map<NodeId, NodeDef>
    ghost const g: Dag
    ghost const universe: set<NodeId>
    var visited: set<NodeId>
    var recursionStack: set<NodeId>
    ghost var rank: map<NodeId, nat>
    ghost var clock: nat

    /** Marked nodes are on the stack or finished, and a finished node's dependencies finished before it. */
    ghost predicate Valid()
      reads this
    {
      && g.Keys == table.Keys
      && (forall n | n in table :: g[n].deps == DepSet(table[n].deps))
      && (forall n :: n in visited <==> n in recursionStack || n in rank)
      && (forall n :: !(n in recursionStack && n in rank))
      && visited <= universe
      && (forall n, d | n in g && d in g[n].deps :: d in universe)
      && (forall n | n in rank :: rank[n] < clock)
      && (forall n, d | n in rank && n in g && d in g[n].deps :: d in rank && rank[d] < rank[n])
    }

    constructor (table: map<NodeId, NodeDef>)
      ensures this.table == table && this.g == DagOfTable(table) && g.Keys <= universe && fresh(this)
      ensures Valid() && visited == {} && recursionStack == {}
    {
      this.table, this.g, this.universe := table, DagOfTable(table), Universe(DagOfTable(table));
      visited, recursionStack, rank, clock := {}, {}, map[], 0;
    }

    /** `trail` is the chain of calls above this one: a walk whose nodes are exactly the stack. */
    method Dfs(nodeId: NodeId, ghost trail: seq<NodeId>) returns (thrown: bool, ghost cycle: seq<NodeId>)
      requires Valid() && nodeId in universe && nodeId !in visited
      requires IsPath(g, trail + [nodeId]) && (forall n :: n in recursionStack <==> n in trail)
      modifies this
      ensures thrown ==> IsCycle(g, cycle)
      ensures !thrown ==> Valid() && nodeId in rank && recursionStack == old(recursionStack)
      ensures !thrown ==> old(rank).Keys <= rank.Keys && old(visited) <= visited
      decreases universe - visited, 0
    {
      cycle := [];
      visited := visited + {nodeId};
      recursionStack := recursionStack + {nodeId};
      if nodeId in table {
        thrown, cycle := VisitDependencies(nodeId, table[nodeId].deps, trail + [nodeId]);
        if thrown { return; }
      }
      Leave(nodeId);
      thrown := false;
    }

    /** Take a node whose dependencies are finished off the stack. */
    method Leave(nodeId: NodeId)
      requires Valid() && nodeId in recursionStack && (nodeId in g ==> g[nodeId].deps <= rank.Keys)
      modifies `recursionStack, `rank, `clock
      ensures Valid() && recursionStack == old(recursionStack) - {nodeId} && rank.Keys == old(rank).Keys + {nodeId}
    {
      recursionStack := recursionStack - {nodeId};
      rank, clock := rank[nodeId := clock], clock + 1;
    }

    /** The loop over one node's dependencies. */
    method VisitDependencies(nodeId: NodeId, deps: seq<NodeId>, ghost here: seq<NodeId>)
      returns (thrown: bool, ghost cycle: seq<NodeId>)
      requires Valid() && nodeId in g && g[nodeId].deps == DepSet(deps)
      requires IsPath(g, here) && here[|here| - 1] == nodeId && (forall n :: n in recursionStack <==> n in here)
      modifies this
      ensures thrown ==> IsCycle(g, cycle)
      ensures !thrown ==> Valid() && recursionStack == old(recursionStack)
      ensures !thrown ==> old(rank).Keys <= rank.Keys && old(visited) <= visited
      ensures !thrown ==> DepSet(deps) <= rank.Keys
      decreases universe - visited, 2
    {
      cycle := [];
      for k := 0 to |deps|
        invariant Valid() && recursionStack == old(recursionStack)
        invariant old(rank).Keys <= rank.Keys && old(visited) <= visited
        invariant forall j | 0 <= j < k :: deps[j] in rank.Keys
      {
        assert deps[k] in DepSet(deps);
        thrown, cycle := VisitDependency(nodeId, deps[k], here);
        if thrown { return; }
      }
      thrown := false;
    }

    /** Visit a new dependency, then see whether it is on the stack. */
    method VisitDependency(nodeId: NodeId, depId: NodeId, ghost here: seq<NodeId>)
      returns (thrown: bool, ghost cycle: seq<NodeId>)
      requires Valid() && nodeId in g && depId in g[nodeId].deps
      requires IsPath(g, here) && here[|here| - 1] == nodeId && (forall n :: n in recursionStack <==> n in here)
      modifies this
      ensures thrown ==> IsCycle(g, cycle)
      ensures !thrown ==> Valid() && recursionStack == old(recursionStack)
      ensures !thrown ==> old(rank).Keys <= rank.Keys && old(visited) <= visited
      ensures !thrown ==> depId in rank.Keys
      decreases universe - visited, 1
    {
      thrown, cycle := false, [];
      ExtendPath(g, here, depId);
      if depId !in visited {
        thrown, cycle := Dfs(depId, here);
        if thrown { return; }
      }
      if depId in recursionStack {
        assert (here + [depId])[..|here|] == here;
        cycle := CloseCycle(g, here + [depId]);
        return true, cycle;
      }
    }
  }

  lemma ExtendPath(g: Dag, p: seq<NodeId>, d: NodeId)
    requires IsPath(g, p) && p[|p| - 1] in g && d in g[p[|p| - 1]].deps
    ensures IsPath(g, p + [d])
  {
    var q := p + [d];
    forall i | 0 <= i < |q| - 1 ensures q[i] in g && q[i + 1] in g[q[i]].deps {
      if i < |p| - 1 { assert q[i] == p[i] && q[i + 1] == p[i + 1]; }
    }
  }

  /** A walk that ends in a node it has already visited contains a cycle. */
  lemma CloseCycle(g: Dag, p: seq<NodeId>) returns (cycle: seq<NodeId>)
    requires IsPath(g, p) && |p| >= 2 && p[|p| - 1] in p[..|p| - 1]
    ensures IsCycle(g, cycle)
  {
    var j :| 0 <= j < |p| - 1 && p[j] == p[|p| - 1];
    cycle := p[j..];
    forall i | 0 <= i < |cycle| - 1 ensures cycle[i] in g && cycle[i + 1] in g[cycle[i]].deps {
      assert cycle[i] == p[j + i] && cycle[i + 1] == p[(j + i) + 1];
    }
  }

  /** Searching from every node throws exactly when there is a cycle; when it does not, the order in
      which it left the nodes ranks them topologically. */
  method SearchFromAll(ids: seq<NodeId>, table: map<NodeId, NodeDef>)
    returns (thrown: bool, ghost rank: map<NodeId, nat>)
    requires forall id :: id in ids <==> id in table
    ensures thrown <==> HasCycle(DagOfTable(table))
    ensures !thrown ==> IsRank(DagOfTable(table), rank)
  {
    var search := new CycleSearch(table);
    for k := 0 to |ids|
      invariant search.table == table && search.g == DagOfTable(table) && search.g.Keys <= search.universe
      invariant search.Valid() && search.recursionStack == {}
      invariant forall j | 0 <= j < k :: ids[j] in search.rank
    {
      if ids[k] !in search.visited {
        ghost var cycle;
        thrown, cycle := search.Dfs(ids[k], []);
        if thrown { return true, map[]; }
      }
    }
    thrown, rank := false, search.rank;
    RankedHasNoCycle(DagOfTable(table), rank);
  }

  method DetectCycles(nodes: seq<NodeDef>) returns (thrown: bool, ghost rank: map<NodeId, nat>)
    ensures thrown <==> HasCycle(DagOf(nodes))
    ensures !thrown ==> IsRank(DagOf(nodes), rank)
  {
    var ids := IdList(nodes);
    thrown, rank := SearchFromAll(ids, Table(nodes));
  }

  /** The bounds the node schema puts on the fields of a definition. */
  predicate SchemaOk(n: NodeDef) {
    && |n.id| >= 1 && n.kind.Some? && |n.name| >= 1
    && (n.retryPolicy.Some? ==> 0.0 <= n.retryPolicy.value.maxRetries <= 10.0 && 0.0 <= n.retryPolicy.value.backoffMs)
    && (n.timeout.Some? ==> 1000.0 <= n.timeout.value <= 3600000.0)
  }

  predicate DepsKnown(nodes: seq<NodeDef>, n: NodeDef) {
    forall d | d in n.deps :: d in Ids(nodes)
  }

  /** What the per-node checks establish, before the search for cycles. */
  ghost predicate WellFormed(nodes: seq<NodeDef>) {
    && nodes != []
    && (forall k | 0 <= k < |nodes| :: SchemaOk(nodes[k]) && DepsKnown(nodes, nodes[k]))
    && UniqueIds(nodes)
  }

  ghost predicate Acceptable(nodes: seq<NodeDef>) {
    WellFormed(nodes) && !HasCycle(DagOf(nodes))
  }

  /** The entry nodes derived when the caller names none. */
  function Roots(nodes: seq<NodeDef>): (r: seq<NodeId>)
    ensures forall id :: id in r ==> id in Ids(nodes)
  {
    if nodes == [] then []
    else
      assert Ids(nodes) == {nodes[0].id} + Ids(nodes[1..]) by { IdsCons(nodes); }
      if nodes[0].deps == [] then [nodes[0].id] + Roots(nodes[1..]) else Roots(nodes[1..])
  }

  /** Derived entry nodes are the nodes without dependencies, each listed once. */
  lemma {:induction false} RootsListedOnce(nodes: seq<NodeDef>, k: nat)
    requires UniqueIds(nodes) && k < |nodes|
    ensures multiset(Roots(nodes))[nodes[k].id] == if nodes[k].deps == [] then 1 else 0
  {
    var rest := nodes[1..];
    assert Roots(nodes) == (if nodes[0].deps == [] then [nodes[0].id] else []) + Roots(rest);
    if k == 0 {
      assert nodes[0].id !in Ids(rest);
    } else {
      assert nodes[k] == rest[k - 1];
      RootsListedOnce(rest, k - 1);
    }
  }

  lemma WellFormedIsClosed(nodes: seq<NodeDef>)
    requires WellFormed(nodes)
    ensures Closed(DagOf(nodes))
  {
    var g := DagOf(nodes);
    forall n, d | n in g && d in g[n].deps ensures d in g {
      var def := Find(nodes, n).value;
      assert DepsKnown(nodes, def);
    }
  }

  /** The per-node checks, in the order they are made. */
  method CheckNodes(nodes: seq<NodeDef>) returns (r: Result<(), GraphError>)
    requires nodes != []
    ensures r.Ok? <==> WellFormed(nodes)
    ensures r.Err? ==> match r.error
      case SchemaError => exists k :: 0 <= k < |nodes| && !SchemaOk(nodes[k])
      case DuplicateId(id) => exists i, j :: 0 <= i < j < |nodes| && nodes[i].id == id == nodes[j].id
      case UnknownDependency(n, d) =>
        d !in Ids(nodes) && exists k :: 0 <= k < |nodes| && nodes[k].id == n && d in nodes[k].deps
      case _ => false
  {
    var nodeIds: set<NodeId> := {};
    for k := 0 to |nodes|
      invariant forall id :: id in nodeIds <==> exists j :: 0 <= j < k && nodes[j].id == id
      invariant forall i, j | 0 <= i < j < k :: nodes[i].id != nodes[j].id
      invariant forall j | 0 <= j < k :: SchemaOk(nodes[j]) && DepsKnown(nodes, nodes[j])
    {
      var node := nodes[k];
      if !SchemaOk(node) { return Err(SchemaError); }
      if node.id in nodeIds { return Err(DuplicateId(node.id)); }
      nodeIds := nodeIds + {node.id};
      for m := 0 to |node.deps|
        invariant forall j | 0 <= j < m :: node.deps[j] in Ids(nodes)
      {
        if node.deps[m] !in Ids(nodes) {
          assert !DepsKnown(nodes, nodes[k]);
          return Err(UnknownDependency(node.id, node.deps[m]));
        }
      }
    }
    r := Ok(());
  }

  /** Validation accepts exactly the well-formed acyclic graphs. The final complaint about missing
      entry nodes can never be raised. */
  method ValidateGraph(nodes: seq<NodeDef>, entryNodes: seq<NodeId>)
    returns (r: Result<seq<NodeId>, GraphError>, ghost rank: map<NodeId, nat>)
    ensures r.Ok? <==> Acceptable(nodes)
    ensures r.Ok? ==> IsRank(DagOf(nodes), rank) && Closed(DagOf(nodes))
    ensures r.Ok? ==> r.value == if entryNodes == [] then Roots(nodes) else entryNodes
    ensures r == Err(NoNodes) <==> nodes == []
    ensures r == Err(CycleFound) <==> WellFormed(nodes) && HasCycle(DagOf(nodes))
    ensures r != Err(NoEntryNodes)
  {
    rank := map[];
    if |nodes| == 0 { return Err(NoNodes), rank; }
    var checked := CheckNodes(nodes);
    if checked.Err? { return Err(checked.error), rank; }
    WellFormedIsClosed(nodes);
    var thrown;
    thrown, rank := DetectCycles(nodes);
    if thrown { return Err(CycleFound), rank; }
    var entries := entryNodes;
    if |entries| == 0 {
      entries := Roots(nodes);
      if |entries| == 0 {
        AcyclicHasEntry(nodes, rank);
        assert false;
        return Err(NoEntryNodes), rank;
      }
    }
    r := Ok(entries);
  }

  /** An acyclic graph always has an entry node. */
  lemma AcyclicHasEntry(nodes: seq<NodeDef>, rank: map<NodeId, nat>)
    requires WellFormed(nodes) && IsRank(DagOf(nodes), rank)
    ensures Roots(nodes) != []
  {
    WellFormedIsClosed(nodes);
    assert nodes[0].id in Ids(nodes);
    var root := RankedHasRoot(DagOf(nodes), rank, nodes[0].id);
    var k :| 0 <= k < |nodes| && nodes[k].id == root;
    FindUnique(nodes, k);
    DepSetEmpty(nodes[k].deps);
    RootsListedOnce(nodes, k);
  }
}
