/** What a run ends with, said of the definition the caller wrote: who runs, after how many attempts, and who does
    not. Nothing here mentions the retry guard or the machine. */
module DefinitionOutcome {
  import opened Common
  import opened Graph
  import opened SchedulerModel
  import opened SchedulerSafety
  import opened SchedulerConfluence
  import opened SchedulerStack
  import opened SchedulerStackRuns
  import opened Validation

  /** The least whole number that is not below `x`. */
  function Ceiling(x: real): int {
    -(-x).Floor
  }

  /** One attempt, and one more for each retry. A fraction counts as a whole retry. */
  function Granted(node: NodeDef): int {
    if node.retryPolicy.None? then 1 else 1 + Ceiling(node.retryPolicy.value.maxRetries)
  }

  /** The retry guard grants a node without a policy one attempt, and one with `maxRetries` retries that many more. */
  lemma AttemptsGranted(node: NodeDef)
    requires SchemaOk(node)
    ensures MaxAttempts(node.retryPolicy) == Granted(node) <= 11
  {}

  lemma WholeRetries(r: nat, backoffMs: real)
    ensures MaxAttempts(Some(RetryPolicy(r as real, backoffMs))) == r + 1 && MaxAttempts(None) == 1
  {}

  function OneTask(id: NodeId, name: string, maxRetries: real, backoffMs: real, timeout: real): NodeDef {
    NodeDef(id, Some(Task), name, [], Some(RetryPolicy(maxRetries, backoffMs)), Some(timeout), false)
  }

  /** The bounds of the schema at work: when a definition of one node is accepted. */
  lemma OneTaskAccepted(id: NodeId, name: string, maxRetries: real, backoffMs: real, timeout: real)
    ensures Acceptable([OneTask(id, name, maxRetries, backoffMs, timeout)])
       <==> id != "" && name != "" && 0.0 <= maxRetries <= 10.0 && 0.0 <= backoffMs && 1000.0 <= timeout <= 3600000.0
  {
    var node := OneTask(id, name, maxRetries, backoffMs, timeout);
    var g := DagOf([node]);
    assert forall n | n in g :: g[n].deps == {};
    RankedHasNoCycle(g, map[]);
    if WellFormed([node]) { assert SchemaOk([node][0]); }
    if SchemaOk(node) { assert DepsKnown([node], node); }
  }

  /** A dependency that lets its dependents run: it completed, or it failed and is marked continueOnError. */
  ghost predicate LetsRun(nodes: seq<NodeDef>, status: map<NodeId, Status>, d: NodeId) {
    && d in status
    && (status[d] == Completed
      || (status[d] == Failed && exists def :: def in nodes && def.id == d && def.continueOnError))
  }

  /** The attempts of a node that runs: up to the first success, or all that it is granted. */
  ghost predicate RanAs(node: NodeDef, o: Oracle, status: Status, attempts: nat) {
    && 1 <= attempts <= Granted(node) && (forall a: nat | 1 <= a < attempts :: !o(node.id, a))
    && (status == Completed <==> exists a: nat :: 1 <= a <= Granted(node) && o(node.id, a))
    && (status == Completed ==> o(node.id, attempts))
    && (status != Completed ==> status == Failed && attempts == Granted(node))
  }

  /** What becomes of a node: it runs if its dependencies let it, and is blocked without an attempt otherwise. */
  ghost predicate EndsAs(nodes: seq<NodeDef>, node: NodeDef, o: Oracle, status: map<NodeId, Status>,
                         attempts: map<NodeId, nat>) {
    && node.id in status && node.id in attempts
    && if forall d | d in node.deps :: LetsRun(nodes, status, d) then RanAs(node, o, status[node.id], attempts[node.id])
       else status[node.id] == Blocked && attempts[node.id] == 0
  }

  lemma LetsRunIsSatisfied(nodes: seq<NodeDef>, status: map<NodeId, Status>, d: NodeId)
    requires UniqueIds(nodes) && d in Ids(nodes)
    ensures LetsRun(nodes, status, d) <==> Satisfied(DagOf(nodes), status, d)
  {
    var k :| 0 <= k < |nodes| && nodes[k].id == d;
    FindUnique(nodes, k);
  }

  lemma LetsRunUnlessBlocking(nodes: seq<NodeDef>, rank: map<NodeId, nat>, o: Oracle, s: State, n: NodeId, d: NodeId)
    requires WellFormed(nodes) && Closed(DagOf(nodes)) && IsRank(DagOf(nodes), rank)
    requires HasFinalOutcome(DagOf(nodes), rank, o, s) && n in DagOf(nodes) && d in DagOf(nodes)[n].deps
    ensures LetsRun(nodes, s.status, d) <==> !Blocks(DagOf(nodes), rank, o, n, d)
  {
    LetsRunIsSatisfied(nodes, s.status, d);
  }

  /** The recursively defined outcome, node by node. */
  lemma OutcomeOfDefinition(nodes: seq<NodeDef>, rank: map<NodeId, nat>, o: Oracle, s: State, k: nat)
    requires WellFormed(nodes) && Closed(DagOf(nodes)) && IsRank(DagOf(nodes), rank) && k < |nodes|
    requires HasFinalOutcome(DagOf(nodes), rank, o, s)
    ensures EndsAs(nodes, nodes[k], o, s.status, s.attempts)
  {
    var g, node := DagOf(nodes), nodes[k];
    NodeOfDefinition(nodes, k);
    BlockedUnlessLet(nodes, rank, o, s, node);
    FinalFields(g, rank, o, s, node.id);
    if s.status[node.id] != Blocked { RanToTheEnd(g, node, o, s.status[node.id], s.attempts[node.id]); }
  }

  lemma NodeOfDefinition(nodes: seq<NodeDef>, k: nat)
    requires UniqueIds(nodes) && k < |nodes|
    ensures nodes[k].id in DagOf(nodes) && DagOf(nodes)[nodes[k].id] == SpecOf(nodes[k])
  {
    FindUnique(nodes, k);
    assert nodes[k].id in Ids(nodes);
  }

  lemma FinalFields(g: Dag, rank: map<NodeId, nat>, o: Oracle, s: State, n: NodeId)
    requires Closed(g) && IsRank(g, rank) && HasFinalOutcome(g, rank, o, s) && n in g
    ensures IsFinalAttempts(g, o, n, s.status[n], s.attempts[n])
    ensures s.status[n] != Blocked ==>
      s.status[n] == if SucceedsWithin(o, n, g[n].maxAttempts) then Completed else Failed
  {}

  lemma BlockedUnlessLet(nodes: seq<NodeDef>, rank: map<NodeId, nat>, o: Oracle, s: State, node: NodeDef)
    requires WellFormed(nodes) && Closed(DagOf(nodes)) && IsRank(DagOf(nodes), rank)
    requires HasFinalOutcome(DagOf(nodes), rank, o, s)
    requires node.id in DagOf(nodes) && DagOf(nodes)[node.id] == SpecOf(node)
    ensures s.status[node.id] != Blocked <==> forall d | d in node.deps :: LetsRun(nodes, s.status, d)
  {
    var g, n := DagOf(nodes), node.id;
    forall d | d in g[n].deps ensures LetsRun(nodes, s.status, d) <==> !Blocks(g, rank, o, n, d) {
      LetsRunUnlessBlocking(nodes, rank, o, s, n, d);
    }
    assert forall d :: d in node.deps <==> d in g[n].deps;
  }

  lemma RanToTheEnd(g: Dag, node: NodeDef, o: Oracle, final: Status, a: nat)
    requires SchemaOk(node) && node.id in g && g[node.id] == SpecOf(node)
    requires final == (if SucceedsWithin(o, node.id, g[node.id].maxAttempts) then Completed else Failed)
    requires IsFinalAttempts(g, o, node.id, final, a)
    ensures RanAs(node, o, final, a)
  {
    AttemptsGranted(node);
  }

  /** Whatever the interleaving, the limit and the handlers, a run of an accepted definition that is over and was not
      stopped ends as the definition says. */
  lemma RunsEndAsDefined(nodes: seq<NodeDef>, e: Env, rank: map<NodeId, nat>, entries: seq<NodeId>,
                         throwers: set<NodeId>, events: seq<Event>, configs: seq<Config>, k: nat)
    requires WellFormed(nodes) && e.g == DagOf(nodes) && k < |nodes|
    requires Sound(e, rank, entries) && OnlyThrow(e, throwers, GoesOn(events)) && NoShortcut(e.g, e.ids, throwers)
    requires IsStackRun(e, entries, events, configs)
    requires var c := configs[|events|]; c.stack == [] && c.s.running && AllDone(e.g, c.s)
    ensures var s := configs[|events|].s; EndsAs(nodes, nodes[k], Outcomes(e), s.status, s.attempts)
  {
    StackConfluence(e, rank, entries, throwers, events, configs);
    OutcomeOfDefinition(nodes, rank, Outcomes(e), configs[|events|].s, k);
  }

  /** Some node of the definition failed and is not marked continueOnError. */
  ghost predicate FailsByDefinition(nodes: seq<NodeDef>, status: map<NodeId, Status>) {
    exists k :: 0 <= k < |nodes| && nodes[k].id in status && status[nodes[k].id] == Failed && !nodes[k].continueOnError
  }

  lemma ThrowsByDefinition(nodes: seq<NodeDef>, status: map<NodeId, Status>)
    requires UniqueIds(nodes)
    ensures Throws(DagOf(nodes), status) <==> FailsByDefinition(nodes, status)
  {
    var g := DagOf(nodes);
    if n :| HardFailed(g, status, n) {
      var k :| 0 <= k < |nodes| && nodes[k].id == n;
      FindUnique(nodes, k);
    }
    if k :| 0 <= k < |nodes| && nodes[k].id in status && status[nodes[k].id] == Failed && !nodes[k].continueOnError {
      FindUnique(nodes, k);
      assert nodes[k].id in Ids(nodes);
      assert HardFailed(g, status, nodes[k].id);
    }
  }
}
