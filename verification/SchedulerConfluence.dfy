/** Confluence: when a run that was not stopped is over, every node's status and attempt count are
    functions of the graph and of the outcome of each attempt alone. */
module SchedulerConfluence {
  import opened Graph
  import opened SchedulerModel
  import opened SchedulerSafety

  ghost predicate SucceedsWithin(o: Oracle, n: NodeId, max: nat) {
    exists k: nat :: 1 <= k <= max && o(n, k)
  }

  /** The status a node must end with: blocked when a dependency ends blocked or failed without
      continueOnError; otherwise completed when one of the attempts it is granted succeeds. */
  ghost function FinalStatus(g: Dag, rank: map<NodeId, nat>, o: Oracle, n: NodeId): Status
    requires Closed(g) && IsRank(g, rank) && n in g
    decreases if n in rank then rank[n] else 0
  {
    if exists d :: d in g[n].deps && Blocks(g, rank, o, n, d) then Blocked
    else if SucceedsWithin(o, n, g[n].maxAttempts) then Completed
    else Failed
  }

  ghost predicate Blocks(g: Dag, rank: map<NodeId, nat>, o: Oracle, n: NodeId, d: NodeId)
    requires Closed(g) && IsRank(g, rank) && n in g && d in g[n].deps
    decreases if n in rank then rank[n] else 0, 0
  {
    var st := FinalStatus(g, rank, o, d);
    st == Blocked || (st == Failed && !g[d].continueOnError)
  }

  /** The number of attempts that takes: up to the first success, or all that are granted. */
  ghost predicate IsFinalAttempts(g: Dag, o: Oracle, n: NodeId, final: Status, a: nat)
    requires n in g
  {
    match final
    case Blocked => a == 0
    case Completed => 1 <= a <= g[n].maxAttempts && o(n, a) && AllFail(o, n, a - 1)
    case _ => a == g[n].maxAttempts && AllFail(o, n, a)
  }

  /** The ranking only makes the recursion well-founded: it does not matter which one is used. */
  lemma {:induction false} RankIrrelevant(g: Dag, r1: map<NodeId, nat>, r2: map<NodeId, nat>, o: Oracle, n: NodeId)
    requires Closed(g) && IsRank(g, r1) && IsRank(g, r2) && n in g
    ensures FinalStatus(g, r1, o, n) == FinalStatus(g, r2, o, n)
    decreases if n in r1 then r1[n] else 0
  {
    forall d | d in g[n].deps ensures Blocks(g, r1, o, n, d) == Blocks(g, r2, o, n, d) {
      RankIrrelevant(g, r1, r2, o, d);
    }
  }

  /** A terminal status, once reached, is the final one. */
  lemma {:induction false} TerminalIsFinal(g: Dag, rank: map<NodeId, nat>, limit: int, o: Oracle, s: State, n: NodeId)
    requires Closed(g) && IsRank(g, rank) && Inv(g, limit, o, s) && s.running
    requires n in g && Terminal(s.status[n])
    ensures s.status[n] == FinalStatus(g, rank, o, n)
    ensures IsFinalAttempts(g, o, n, s.status[n], s.attempts[n])
    decreases if n in rank then rank[n] else 0
  {
    assert NodeInv(g, o, s, n);
    forall d | d in g[n].deps && Terminal(s.status[d])
      ensures s.status[d] == FinalStatus(g, rank, o, d)
    {
      TerminalIsFinal(g, rank, limit, o, s, d);
    }
    if s.status[n] == Blocked {
      var d :| d in g[n].deps && Bad(g, s.status, d);
      assert Blocks(g, rank, o, n, d);
    } else {
      assert forall d | d in g[n].deps :: Satisfied(g, s.status, d) && !Blocks(g, rank, o, n, d);
    }
  }

  /** `execute` throws: some node failed and was not marked continueOnError. */
  ghost predicate Throws(g: Dag, status: map<NodeId, Status>) {
    exists n :: HardFailed(g, status, n)
  }

  /** The outcome a run must have. */
  ghost predicate HasFinalOutcome(g: Dag, rank: map<NodeId, nat>, o: Oracle, s: State)
    requires Closed(g) && IsRank(g, rank)
  {
    && s.status.Keys == s.attempts.Keys == g.Keys
    && forall n | n in g ::
         && s.status[n] == FinalStatus(g, rank, o, n)
         && IsFinalAttempts(g, o, n, s.status[n], s.attempts[n])
  }

  ghost predicate FailsHard(g: Dag, rank: map<NodeId, nat>, o: Oracle, n: NodeId)
    requires Closed(g) && IsRank(g, rank)
  {
    n in g && FinalStatus(g, rank, o, n) == Failed && !g[n].continueOnError
  }

  lemma DoneIsFinal(g: Dag, rank: map<NodeId, nat>, limit: int, o: Oracle, s: State)
    requires Closed(g) && IsRank(g, rank) && Inv(g, limit, o, s) && s.running && AllDone(g, s)
    ensures HasFinalOutcome(g, rank, o, s)
  {
    forall n | n in g
      ensures s.status[n] == FinalStatus(g, rank, o, n)
      ensures IsFinalAttempts(g, o, n, s.status[n], s.attempts[n])
    {
      TerminalIsFinal(g, rank, limit, o, s, n);
    }
  }

  lemma ThrowsIffFailsHard(g: Dag, rank: map<NodeId, nat>, o: Oracle, s: State)
    requires Closed(g) && IsRank(g, rank) && HasFinalOutcome(g, rank, o, s)
    ensures Throws(g, s.status) <==> exists n :: FailsHard(g, rank, o, n)
  {
    if Throws(g, s.status) {
      var n :| HardFailed(g, s.status, n);
      assert FailsHard(g, rank, o, n);
    }
    if n :| FailsHard(g, rank, o, n) {
      assert HardFailed(g, s.status, n);
    }
  }

  /** Confluence: whatever the interleaving and the limit, a run that is over and was not stopped ends
      with the final status and attempt count at every node, and `execute` throws exactly when the
      final status of some node is a failure without continueOnError. */
  lemma Confluence(g: Dag, rank: map<NodeId, nat>, limit: int, o: Oracle, entries: seq<NodeId>,
                   actions: seq<Action>, states: seq<State>)
    requires Runnable(g, rank, entries) && IsRun(g, limit, o, entries, actions, states)
    requires states[|actions|].running && AllDone(g, states[|actions|])
    ensures HasFinalOutcome(g, rank, o, states[|actions|])
    ensures Throws(g, states[|actions|].status) <==> exists n :: FailsHard(g, rank, o, n)
  {
    RunInv(g, rank, limit, o, entries, actions, states, |actions|);
    DoneIsFinal(g, rank, limit, o, states[|actions|]);
    ThrowsIffFailsHard(g, rank, o, states[|actions|]);
  }

  /** Two complete runs over the same graph and outcomes agree, even with different limits and entry
      orders. */
  lemma RunsAgree(g: Dag, rank: map<NodeId, nat>, o: Oracle,
                  limit1: int, entries1: seq<NodeId>, actions1: seq<Action>, states1: seq<State>,
                  limit2: int, entries2: seq<NodeId>, actions2: seq<Action>, states2: seq<State>)
    requires Runnable(g, rank, entries1) && IsRun(g, limit1, o, entries1, actions1, states1)
    requires Runnable(g, rank, entries2) && IsRun(g, limit2, o, entries2, actions2, states2)
    requires states1[|actions1|].running && AllDone(g, states1[|actions1|])
    requires states2[|actions2|].running && AllDone(g, states2[|actions2|])
    ensures states1[|actions1|].status == states2[|actions2|].status
    ensures states1[|actions1|].attempts == states2[|actions2|].attempts
  {
    Confluence(g, rank, limit1, o, entries1, actions1, states1);
    Confluence(g, rank, limit2, o, entries2, actions2, states2);
    FinalOutcomesAgree(g, rank, o, states1[|actions1|], states2[|actions2|]);
  }

  lemma FinalOutcomesAgree(g: Dag, rank: map<NodeId, nat>, o: Oracle, s1: State, s2: State)
    requires Closed(g) && IsRank(g, rank) && HasFinalOutcome(g, rank, o, s1) && HasFinalOutcome(g, rank, o, s2)
    ensures s1.status == s2.status && s1.attempts == s2.attempts
  {
    forall n | n in g ensures s1.attempts[n] == s2.attempts[n] {
      FinalAttemptsUnique(g, o, n, s1.status[n], s1.attempts[n], s2.attempts[n]);
    }
  }

  lemma FinalAttemptsUnique(g: Dag, o: Oracle, n: NodeId, final: Status, a: nat, b: nat)
    requires n in g && IsFinalAttempts(g, o, n, final, a) && IsFinalAttempts(g, o, n, final, b)
    ensures a == b
  {}
}
