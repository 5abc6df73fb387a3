/** Graphs of the agent scheduler: node definitions as the caller writes them, and the
    dependency relation they denote. */
module Graph {
  import opened Common

  type NodeId = string

  datatype NodeType = Task | Condition | Parallel | Merge | Loop

  /** `maxRetries` need not be an integer: the schema admits any number between 0 and 10. */
  datatype RetryPolicy = RetryPolicy(maxRetries: real, backoffMs: real)

  /** A node definition as the caller writes it. A `kind` of `None` is a string that is no node type. */
  datatype NodeDef = NodeDef(id: NodeId, kind: Option<NodeType>, name: string, deps: seq<NodeId>,
                             retryPolicy: Option<RetryPolicy>, timeout: Option<real>, continueOnError: bool)

  /** What scheduling needs to know of a node: order and repetition of `deps` do not matter. */
  datatype Spec = Spec(deps: set<NodeId>, maxAttempts: nat, continueOnError: bool)

  type Dag = map<NodeId, Spec>

  /** The retry guard: another attempt follows attempt number `attempts` when it fails. */
  predicate RetryAllowed(retryPolicy: Option<RetryPolicy>, attempts: nat) {
    retryPolicy.Some? && attempts as real < retryPolicy.value.maxRetries + 1.0
  }

  /** The number of attempts the retry guard grants before a failure is final. */
  function MaxAttempts(retryPolicy: Option<RetryPolicy>): (m: nat)
    ensures m >= 1
    ensures forall a: nat :: a >= 1 ==> (RetryAllowed(retryPolicy, a) <==> a < m)
  {
    match retryPolicy
    case None => 1
    case Some(RetryPolicy(r, _)) =>
      if r <= 0.0 then 1
      else if r.Floor as real == r then r.Floor + 1
      else r.Floor + 2
  }

  function Ids(nodes: seq<NodeDef>): set<NodeId> {
    set k | 0 <= k < |nodes| :: nodes[k].id
  }

  /** The first definition with the given id. */
  function Find(nodes: seq<NodeDef>, id: NodeId): (r: Option<NodeDef>)
    ensures r.Some? <==> id in Ids(nodes)
    ensures r.Some? ==> r.value in nodes && r.value.id == id
  {
    if nodes == [] then None
    else if nodes[0].id == id then Some(nodes[0])
    else
      assert Ids(nodes) == {nodes[0].id} + Ids(nodes[1..]) by { IdsCons(nodes); }
      Find(nodes[1..], id)
  }

  function IdList(nodes: seq<NodeDef>): (ids: seq<NodeId>)
    ensures forall id :: id in ids <==> id in Ids(nodes)
  {
    var ids := seq(|nodes|, i requires 0 <= i < |nodes| => nodes[i].id);
    assert forall k | 0 <= k < |nodes| :: ids[k] == nodes[k].id;
    ids
  }

  lemma IdsCons(nodes: seq<NodeDef>)
    requires nodes != []
    ensures Ids(nodes) == {nodes[0].id} + Ids(nodes[1..])
  {
    forall k | 0 < k < |nodes| ensures nodes[k].id in Ids(nodes[1..]) {
      assert nodes[k] == nodes[1..][k - 1];
    }
    forall x | x in Ids(nodes[1..]) ensures x in Ids(nodes) {
      var k :| 0 <= k < |nodes[1..]| && nodes[1..][k].id == x;
      assert nodes[k + 1].id == x;
    }
  }

  function DepSet(deps: seq<NodeId>): set<NodeId> {
    set d | d in deps
  }

  lemma DepSetEmpty(deps: seq<NodeId>)
    ensures DepSet(deps) == {} <==> deps == []
  {
    if deps != [] { assert deps[0] in DepSet(deps); }
  }

  function SpecOf(n: NodeDef): Spec {
    Spec(DepSet(n.deps), MaxAttempts(n.retryPolicy), n.continueOnError)
  }

  /** What looking a node up by id gives. */
  function Table(nodes: seq<NodeDef>): (t: map<NodeId, NodeDef>)
    ensures t.Keys == Ids(nodes)
    ensures forall id | id in t :: Find(nodes, id) == Some(t[id])
  {
    map id | id in Ids(nodes) :: Find(nodes, id).value
  }

  /** The graph a lookup table denotes. */
  function DagOfTable(t: map<NodeId, NodeDef>): (g: Dag)
    ensures g.Keys == t.Keys
    ensures forall n | n in t :: g[n] == SpecOf(t[n])
  {
    map id | id in t :: SpecOf(t[id])
  }

  /** The graph a definition list denotes. */
  function DagOf(nodes: seq<NodeDef>): Dag {
    DagOfTable(Table(nodes))
  }

  predicate UniqueIds(nodes: seq<NodeDef>) {
    forall i, j | 0 <= i < j < |nodes| :: nodes[i].id != nodes[j].id
  }

  lemma FindUnique(nodes: seq<NodeDef>, k: nat)
    requires UniqueIds(nodes) && k < |nodes|
    ensures Find(nodes, nodes[k].id) == Some(nodes[k])
  {
    var r := Find(nodes, nodes[k].id);
    assert nodes[k].id in Ids(nodes);
    var j :| 0 <= j < |nodes| && nodes[j] == r.value;
  }

  /** Every dependency names a node of the graph. */
  ghost predicate Closed(g: Dag) {
    forall n, d | n in g && d in g[n].deps :: d in g
  }

  /** A topological ranking: dependencies rank strictly below their dependents. */
  ghost predicate IsRank(g: Dag, rank: map<NodeId, nat>) {
    forall n, d | n in g && d in g[n].deps :: n in rank && d in rank && rank[d] < rank[n]
  }

  lemma RankOfDependency(g: Dag, rank: map<NodeId, nat>, n: NodeId, d: NodeId)
    requires IsRank(g, rank) && n in g && d in g[n].deps
    ensures n in rank && d in rank && rank[d] < rank[n]
  {}

  /** A walk along dependency edges, from a node towards what it depends on. */
  ghost predicate IsPath(g: Dag, p: seq<NodeId>) {
    |p| >= 1 && forall i | 0 <= i < |p| - 1 :: p[i] in g && p[i + 1] in g[p[i]].deps
  }

  ghost predicate IsCycle(g: Dag, p: seq<NodeId>) {
    IsPath(g, p) && |p| >= 2 && p[0] == p[|p| - 1]
  }

  ghost predicate HasCycle(g: Dag) {
    exists p :: IsCycle(g, p)
  }

  ghost predicate PathFromTo(g: Dag, p: seq<NodeId>, n: NodeId, d: NodeId) {
    IsPath(g, p) && |p| >= 2 && p[0] == n && p[|p| - 1] == d
  }

  /** `n` depends on `d`, directly or through other nodes. */
  ghost predicate DependsOn(g: Dag, n: NodeId, d: NodeId) {
    exists p :: PathFromTo(g, p, n, d)
  }

  lemma TailIsPath(g: Dag, p: seq<NodeId>)
    requires IsPath(g, p) && |p| >= 2
    ensures IsPath(g, p[1..])
  {
    var q := p[1..];
    forall i | 0 <= i < |q| - 1 ensures q[i] in g && q[i + 1] in g[q[i]].deps {
      assert q[i] == p[i + 1] && q[i + 1] == p[(i + 1) + 1];
    }
  }

  lemma {:induction false} RankFallsAlongPath(g: Dag, rank: map<NodeId, nat>, p: seq<NodeId>)
    requires IsRank(g, rank) && IsPath(g, p) && |p| >= 2
    ensures p[0] in rank && p[|p| - 1] in rank
    ensures rank[p[|p| - 1]] < rank[p[0]]
  {
    var n, d := p[0], p[1];
    assert n in g && p[0 + 1] in g[n].deps;
    assert n in rank && d in rank && rank[d] < rank[n];
    if |p| > 2 {
      TailIsPath(g, p);
      RankFallsAlongPath(g, rank, p[1..]);
    }
  }

  /** A ranked graph is acyclic. */
  lemma RankedHasNoCycle(g: Dag, rank: map<NodeId, nat>)
    requires IsRank(g, rank)
    ensures !HasCycle(g)
  {
    if HasCycle(g) {
      var p :| IsCycle(g, p);
      RankFallsAlongPath(g, rank, p);
    }
  }

  /** A non-empty ranked graph has a node without dependencies. */
  lemma {:induction false} RankedHasRoot(g: Dag, rank: map<NodeId, nat>, start: NodeId) returns (root: NodeId)
    requires IsRank(g, rank) && Closed(g) && start in g
    ensures root in g && g[root].deps == {}
    decreases if start in rank then rank[start] else 0
  {
    if g[start].deps == {} {
      root := start;
    } else {
      var d :| d in g[start].deps;
      root := RankedHasRoot(g, rank, d);
    }
  }

  // ---- dependents in order ----

  /** The dependents of a node, in the order of the definition. */
  function Listed(g: Dag, ids: seq<NodeId>, n: NodeId): seq<NodeId> {
    if ids == [] then []
    else (if ids[0] in g && n in g[ids[0]].deps then [ids[0]] else []) + Listed(g, ids[1..], n)
  }

  ghost predicate Precedes(ids: seq<NodeId>, a: NodeId, b: NodeId) {
    exists i, j :: 0 <= i < j < |ids| && ids[i] == a && ids[j] == b
  }

  ghost predicate ListsOnce(list: seq<NodeId>, all: set<NodeId>) {
    forall n :: multiset(list)[n] == if n in all then 1 else 0
  }

  lemma {:induction false} ListedIs(g: Dag, ids: seq<NodeId>, n: NodeId, x: NodeId)
    ensures multiset(Listed(g, ids, n))[x] == if x in g && n in g[x].deps then multiset(ids)[x] else 0
  {
    if ids != [] {
      var here := if ids[0] in g && n in g[ids[0]].deps then [ids[0]] else [];
      ListedIs(g, ids[1..], n, x);
      assert multiset(Listed(g, ids, n)) == multiset(here) + multiset(Listed(g, ids[1..], n));
      assert ids == [ids[0]] + ids[1..];
      assert multiset(ids) == multiset{ids[0]} + multiset(ids[1..]);
    }
  }

  lemma ListedMembers(g: Dag, ids: seq<NodeId>, n: NodeId, x: NodeId)
    requires ListsOnce(ids, g.Keys)
    ensures x in Listed(g, ids, n) <==> x in g && n in g[x].deps
    ensures multiset(Listed(g, ids, n))[x] <= 1
  {
    ListedIs(g, ids, n, x);
    assert x in Listed(g, ids, n) <==> multiset(Listed(g, ids, n))[x] > 0;
  }

  /** What stands before in the list of dependents comes before in the definition. */
  lemma {:induction false} ListedOrder(g: Dag, ids: seq<NodeId>, n: NodeId, k: nat, a: NodeId, b: NodeId)
    requires k <= |Listed(g, ids, n)| && a in Listed(g, ids, n)[..k] && b in Listed(g, ids, n)[k..]
    ensures Precedes(ids, a, b)
  {
    var rest := Listed(g, ids[1..], n);
    if ids[0] in g && n in g[ids[0]].deps {
      SplitAfterHead(ids[0], rest, k);
      if a == ids[0] {
        ListedWithin(g, ids[1..], n, b);
        PrecedesHead(ids, b);
      } else {
        ListedOrder(g, ids[1..], n, k - 1, a, b);
        PrecedesTail(ids, a, b);
      }
    } else {
      assert Listed(g, ids, n) == rest;
      ListedOrder(g, ids[1..], n, k, a, b);
      PrecedesTail(ids, a, b);
    }
  }

  lemma SplitAfterHead(x: NodeId, rest: seq<NodeId>, k: nat)
    requires 0 < k <= 1 + |rest|
    ensures ([x] + rest)[..k] == [x] + rest[..k - 1] && ([x] + rest)[k..] == rest[k - 1..]
  {}

  lemma PrecedesHead(ids: seq<NodeId>, b: NodeId)
    requires ids != [] && b in ids[1..]
    ensures Precedes(ids, ids[0], b)
  {
    var j :| 0 <= j < |ids[1..]| && ids[1..][j] == b;
    assert ids[j + 1] == b;
  }

  lemma PrecedesTail(ids: seq<NodeId>, a: NodeId, b: NodeId)
    requires ids != [] && Precedes(ids[1..], a, b)
    ensures Precedes(ids, a, b)
  {
    var i, j :| 0 <= i < j < |ids[1..]| && ids[1..][i] == a && ids[1..][j] == b;
    assert ids[i + 1] == a && ids[j + 1] == b;
  }

  lemma {:induction false} ListedWithin(g: Dag, ids: seq<NodeId>, n: NodeId, x: NodeId)
    requires x in Listed(g, ids, n)
    ensures x in ids
  {
    if !(ids[0] in g && n in g[ids[0]].deps && x == ids[0]) {
      assert x in Listed(g, ids[1..], n);
      ListedWithin(g, ids[1..], n, x);
    }
  }

  lemma {:induction false} ListedSnoc(g: Dag, ids: seq<NodeId>, x: NodeId, n: NodeId)
    ensures Listed(g, ids + [x], n) == Listed(g, ids, n) + (if x in g && n in g[x].deps then [x] else [])
  {
    if ids == [] {
      assert ids + [x] == [x] && [x][1..] == [];
    } else {
      assert (ids + [x])[1..] == ids[1..] + [x];
      ListedSnoc(g, ids[1..], x, n);
    }
  }
}
