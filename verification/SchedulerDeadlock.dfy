/** The other half of progress: when the retrying nodes that can be underway at once are as many as the
    slots, some run does get stuck. Together with SchedulerProgress this gives the exact condition. */
module SchedulerDeadlock {
  import opened Graph
  import opened SchedulerModel
  import opened SchedulerSafety
  import opened SchedulerProgress
  import opened SchedulerConfluence

  /** Exactly the nodes of `ids` fail, on every attempt. */
  ghost function FailOn(ids: set<NodeId>): Oracle {
    (n: NodeId, k: nat) => n !in ids
  }

  /** So far every attempt was a first one, and nothing has failed for good. */
  ghost predicate Calm(g: Dag, ids: set<NodeId>, s: State) {
    && s.running
    && s.status.Keys == s.attempts.Keys == g.Keys
    && (forall n | n in g :: s.attempts[n] <= 1 && s.status[n] in {Pending, Running, Completed})
    && (forall n | n in s.backoff :: n in ids)
  }

  /** Actions other than starting a second attempt. */
  predicate First(a: Action) {
    a != Stop && !a.Reacquire?
  }

  lemma CalmApply(g: Dag, ids: set<NodeId>, s: State, a: Action)
    requires Calm(g, ids, s) && First(a)
    requires a.Acquire? ==> a.n in g && s.attempts[a.n] == 0
    requires a.Resolve? ==> a.n in g
    requires a.Reject? ==> a.n in ids && a.n in g && g[a.n].maxAttempts > 1
    ensures Calm(g, ids, Apply(g, s, a))
  {}

  lemma CalmStep(g: Dag, limit: int, ids: set<NodeId>, s: State, a: Action)
    requires RetryAntichain(g, ids) && Inv(g, limit, FailOn(ids), s) && Calm(g, ids, s)
    requires First(a) && Enabled(g, limit, FailOn(ids), s, a)
    ensures Calm(g, ids, Apply(g, s, a))
  {
    if a.Acquire? {
      assert !Quiet(s, a.n) && NodeInv(g, FailOn(ids), s, a.n);
    } else if a.Reject? || a.Resolve? {
      HandlerInv(g, limit, FailOn(ids), s, a.n);
    }
    CalmApply(g, ids, s, a);
  }

  lemma {:induction false} RunOn(g: Dag, limit: int, o: Oracle, entries: seq<NodeId>,
              actions: seq<Action>, states: seq<State>, a: Action)
    requires IsRun(g, limit, o, entries, actions, states) && Enabled(g, limit, o, states[|actions|], a)
    ensures IsRun(g, limit, o, entries, actions + [a], states + [Apply(g, states[|actions|], a)])
  {
    var actions', states' := actions + [a], states + [Apply(g, states[|actions|], a)];
    forall i | 0 <= i < |actions'| ensures Step(g, limit, o, states'[i], actions'[i], states'[i + 1]) {
      if i < |actions| {
        assert Step(g, limit, o, states[i], actions[i], states[i + 1]);
      }
    }
  }

  ghost predicate NoFirstAction(g: Dag, limit: int, o: Oracle, s: State) {
    forall a | First(a) :: !Enabled(g, limit, o, s, a)
  }

  /** Keep taking actions other than second attempts until none is left. */
  lemma {:induction false} Drain(g: Dag, rank: map<NodeId, nat>, limit: int, ids: set<NodeId>, entries: seq<NodeId>,
                                actions: seq<Action>, states: seq<State>)
    returns (actions': seq<Action>, states': seq<State>)
    requires Runnable(g, rank, entries) && RetryAntichain(g, ids)
    requires IsRun(g, limit, FailOn(ids), entries, actions, states) && NeverStopped(actions)
    requires Inv(g, limit, FailOn(ids), states[|actions|]) && Calm(g, ids, states[|actions|])
    ensures IsRun(g, limit, FailOn(ids), entries, actions', states') && NeverStopped(actions')
    ensures Inv(g, limit, FailOn(ids), states'[|actions'|]) && Calm(g, ids, states'[|actions'|])
    ensures NoFirstAction(g, limit, FailOn(ids), states'[|actions'|])
    decreases Measure(g, states[|actions|])
  {
    var s, o := states[|actions|], FailOn(ids);
    if a :| First(a) && Enabled(g, limit, o, s, a) {
      StepKeeps(g, rank, limit, o, entries, s, a);
      CalmStep(g, limit, ids, s, a);
      MeasureFalls(g, limit, o, s, a);
      RunOn(g, limit, o, entries, actions, states, a);
      actions', states' := Drain(g, rank, limit, ids, entries, actions + [a], states + [Apply(g, s, a)]);
    } else {
      actions', states' := actions, states;
    }
  }

  /** A node of the antichain cannot be idle: it would be waiting for another one of them. */
  lemma AntichainInBackoff(g: Dag, rank: map<NodeId, nat>, limit: int, ids: set<NodeId>, s: State, n: NodeId)
    requires Closed(g) && IsRank(g, rank) && RetryAntichain(g, ids) && Inv(g, limit, FailOn(ids), s)
    requires Calm(g, ids, s) && s.inHandler == multiset{} && s.waiting == multiset{} && n in ids
    ensures n in s.backoff
  {
    assert NodeInv(g, FailOn(ids), s, n);
    if n !in s.backoff {
      var b := IdleWaitsForBackoff(g, rank, limit, FailOn(ids), s, n);
    }
  }

  lemma DrainedIsQuiet(g: Dag, limit: int, o: Oracle, s: State)
    requires Inv(g, limit, o, s) && NoFirstAction(g, limit, o, s)
    ensures s.inHandler == multiset{} && s.active == |s.backoff|
    ensures s.active < limit ==> s.waiting == multiset{}
  {
    HandlersCanSettle(g, limit, o, s);
    assert s.inHandler == multiset{};
    assert !Enabled(g, limit, o, s, Release);
    if s.active < limit { FreeSlotIsTaken(g, limit, o, s); }
  }

  /** When only second attempts are left, either the slots are gone or all of `ids` is in backoff. */
  lemma DrainedHoldsSlots(g: Dag, rank: map<NodeId, nat>, limit: int, ids: set<NodeId>, s: State)
    requires Closed(g) && IsRank(g, rank) && RetryAntichain(g, ids) && Inv(g, limit, FailOn(ids), s)
    requires Calm(g, ids, s) && NoFirstAction(g, limit, FailOn(ids), s)
    ensures s.active == |s.backoff| && (limit <= s.active || ids <= Support(s.backoff))
  {
    DrainedIsQuiet(g, limit, FailOn(ids), s);
    if s.active < limit {
      forall n | n in ids ensures n in Support(s.backoff) {
        AntichainInBackoff(g, rank, limit, ids, s, n);
      }
    }
  }

  lemma SlotsGoneIsStuck(g: Dag, limit: int, o: Oracle, s: State)
    requires Inv(g, limit, o, s) && NoFirstAction(g, limit, o, s) && s.active >= limit
    requires exists n :: n in g && s.status[n] == Pending
    ensures Stuck(g, limit, o, s)
  {
    forall a | a != Stop ensures !Enabled(g, limit, o, s, a) {
      if First(a) { assert !Enabled(g, limit, o, s, a); }
    }
  }

  /** If retrying nodes that do not depend on each other are as many as the slots, a run gets stuck. */
  lemma StuckRunExists(g: Dag, rank: map<NodeId, nat>, limit: int, entries: seq<NodeId>, ids: set<NodeId>)
    returns (actions: seq<Action>, states: seq<State>)
    requires Runnable(g, rank, entries) && g != map[] && RetryAntichain(g, ids) && limit <= |ids|
    ensures IsRun(g, limit, FailOn(ids), entries, actions, states) && NeverStopped(actions)
    ensures Stuck(g, limit, FailOn(ids), states[|actions|])
  {
    var o := FailOn(ids);
    InitInv(g, rank, limit, o, entries);
    actions, states := [], [Init(g, entries)];
    if limit <= 0 {
      var n :| n in g;
      assert states[0].status[n] == Pending;
      SlotsGoneIsStuck(g, limit, o, states[0]);
    } else {
      actions, states := Drain(g, rank, limit, ids, entries, actions, states);
      var s := states[|actions|];
      DrainedHoldsSlots(g, rank, limit, ids, s);
      BackoffIsAntichain(g, limit, o, s);
      if ids <= Support(s.backoff) { SubsetSize(ids, Support(s.backoff)); }
      BackoffIsPending(g, limit, o, s);
      SlotsGoneIsStuck(g, limit, o, s);
    }
  }

  lemma BackoffIsPending(g: Dag, limit: int, o: Oracle, s: State)
    requires Inv(g, limit, o, s) && |s.backoff| > 0
    ensures exists n :: n in g && s.status[n] == Pending
  {
    var b :| b in s.backoff;
    assert !Quiet(s, b) && NodeInv(g, o, s, b);
  }

  lemma {:induction false} SubsetSize(a: set<NodeId>, b: set<NodeId>)
    requires a <= b
    ensures |a| <= |b|
  {
    if a != {} {
      var x :| x in a;
      SubsetSize(a - {x}, b - {x});
    }
  }

  /** No run, for any handler behaviour and interleaving, gets stuck. */
  ghost predicate NeverStuck(g: Dag, limit: int, entries: seq<NodeId>) {
    forall o: Oracle, actions: seq<Action>, states: seq<State> ::
      IsRun(g, limit, o, entries, actions, states) && NeverStopped(actions)
      ==> !Stuck(g, limit, o, states[|actions|])
  }

  /** The exact condition for progress: runs never get stuck if and only if every set of retrying nodes
      that do not depend on each other is smaller than the concurrency limit. */
  lemma ProgressExactly(g: Dag, rank: map<NodeId, nat>, limit: int, entries: seq<NodeId>)
    requires Runnable(g, rank, entries) && g != map[]
    ensures NeverStuck(g, limit, entries) <==> SlotsSuffice(g, limit)
  {
    if SlotsSuffice(g, limit) {
      forall o: Oracle, actions: seq<Action>, states: seq<State>
        | IsRun(g, limit, o, entries, actions, states) && NeverStopped(actions)
        ensures !Stuck(g, limit, o, states[|actions|])
      {
        RunInv(g, rank, limit, o, entries, actions, states, |actions|);
        Progress(g, rank, limit, o, states[|actions|]);
      }
    } else {
      var ids: set<NodeId> :| RetryAntichain(g, ids) && limit <= |ids|;
      var actions, states := StuckRunExists(g, rank, limit, entries, ids);
      assert !NeverStuck(g, limit, entries);
    }
  }

  /** A simple sufficient condition: fewer nodes than slots have a retry policy at all. */
  lemma FewRetryingNodes(g: Dag, limit: int)
    requires |set n | n in g && g[n].maxAttempts > 1| < limit
    ensures SlotsSuffice(g, limit)
  {
    forall ids: set<NodeId> | RetryAntichain(g, ids) ensures |ids| < limit {
      SubsetSize(ids, set n | n in g && g[n].maxAttempts > 1);
    }
  }

  /** The smallest stuck scheduler: one slot, one node that may retry, a first attempt that fails. */
  lemma OneSlotOneRetryIsStuck(n: NodeId, retries: nat, continueOnError: bool)
    returns (actions: seq<Action>, states: seq<State>)
    requires retries >= 1
    ensures var g := map[n := Spec({}, retries + 1, continueOnError)];
      && IsRun(g, 1, FailOn({n}), [n], actions, states)
      && Stuck(g, 1, FailOn({n}), states[|actions|])
  {
    var g: Dag := map[n := Spec({}, retries + 1, continueOnError)];
    assert Runnable(g, map[], [n]);
    forall p ensures !PathFromTo(g, p, n, n) {
      if IsPath(g, p) && |p| >= 2 { RankFallsAlongPath(g, map[], p); }
    }
    assert RetryAntichain(g, {n});
    actions, states := StuckRunExists(g, map[], 1, [n], {n});
  }

  /** Progress, termination and confluence together: under the condition, a run that is not stopped and
      cannot go on any more has brought every node to its final status, and every run gets there within
      the measure of its start. */
  lemma MaximalRunsEndRight(g: Dag, rank: map<NodeId, nat>, limit: int, o: Oracle, entries: seq<NodeId>,
                            actions: seq<Action>, states: seq<State>)
    requires Runnable(g, rank, entries) && SlotsSuffice(g, limit)
    requires IsRun(g, limit, o, entries, actions, states) && NeverStopped(actions)
    ensures |actions| <= Measure(g, Init(g, entries))
    ensures (forall a | a != Stop :: !Enabled(g, limit, o, states[|actions|], a))
            ==> HasFinalOutcome(g, rank, o, states[|actions|])
  {
    var s := states[|actions|];
    RunInv(g, rank, limit, o, entries, actions, states, |actions|);
    RunsAreFinite(g, rank, limit, o, entries, actions, states, |actions|);
    Progress(g, rank, limit, o, s);
    if AllDone(g, s) { DoneIsFinal(g, rank, limit, o, s); }
  }
}
