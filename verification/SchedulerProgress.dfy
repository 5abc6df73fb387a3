/** Progress and termination of the scheduler. Every run is finite. Whether it can get stuck before all
    nodes are terminal depends on one thing only: whether enough nodes that may retry can be in backoff
    at the same time to hold every slot. */
module SchedulerProgress {
  import opened Graph
  import opened SchedulerModel
  import opened SchedulerSafety

  // ---- termination ----

  /** How much work a node may still cause. */
  ghost function Weight(g: Dag, s: State, n: NodeId): nat {
    if n !in g || n !in s.status || n !in s.attempts || Terminal(s.status[n]) then 0
    else
      3 * (if s.attempts[n] <= g[n].maxAttempts then g[n].maxAttempts - s.attempts[n] else 0) +
      (if s.status[n] == Running then 2 else if s.backoff[n] > 0 then 1 else if s.waiting[n] > 0 then 3 else 4)
  }

  ghost function Total(g: Dag, s: State, ids: set<NodeId>): nat {
    if ids == {} then 0 else var n :| n in ids; Weight(g, s, n) + Total(g, s, ids - {n})
  }

  ghost function Measure(g: Dag, s: State): nat {
    Total(g, s, g.Keys) + s.finishing
  }

  lemma {:induction false} TotalFalls(g: Dag, s: State, s': State, ids: set<NodeId>, n: NodeId, drop: nat)
    requires forall x | x in ids :: Weight(g, s', x) + (if x == n then drop else 0) <= Weight(g, s, x)
    ensures Total(g, s', ids) + (if n in ids then drop else 0) <= Total(g, s, ids)
  {
    if ids != {} {
      var x :| x in ids && Total(g, s, ids) == Weight(g, s, x) + Total(g, s, ids - {x})
                        && Total(g, s', ids) == Weight(g, s', x) + Total(g, s', ids - {x});
      TotalFalls(g, s, s', ids - {x}, n, drop);
    }
  }

  lemma BeginWeight(g: Dag, o: Oracle, s: State, a: Action, n: NodeId, x: NodeId)
    requires s.status.Keys == s.attempts.Keys == g.Keys && n in g && x in g && g[n].maxAttempts >= 1
    requires (a == Acquire(n) && n in s.waiting) || (a == Reacquire(n) && n in s.backoff)
    requires NodeInv(g, o, s, n)
    ensures Weight(g, Apply(g, s, a), x) + (if x == n then 2 else 0) <= Weight(g, s, x)
  {}

  lemma FinishWeight(g: Dag, o: Oracle, s: State, n: NodeId, final: Status, x: NodeId)
    requires s.status.Keys == s.attempts.Keys == g.Keys && n in g && x in g && n in s.inHandler
    requires NodeInv(g, o, s, n) && NodeInv(g, o, s, x) && Terminal(final)
    ensures Weight(g, Finish(g, s, n, final), x) + (if x == n then 2 else 0) <= Weight(g, s, x)
  {}

  lemma BlockingWeight(g: Dag, o: Oracle, s: State, n: NodeId, x: NodeId)
    requires s.status.Keys == s.attempts.Keys == g.Keys && n in g && x in g && n in s.inHandler
    requires NodeInv(g, o, s, n)
    ensures Weight(g, FinishBlocking(g, s, n), x) + (if x == n then 2 else 0) <= Weight(g, s, x)
  {
    if Blockable(g, s.status[n := Failed], n, n) { var _ := BlockableInv(g, s.status[n := Failed], n, n); }
  }

  lemma RetryWeight(g: Dag, o: Oracle, s: State, n: NodeId, x: NodeId)
    requires s.status.Keys == s.attempts.Keys == g.Keys && n in g && x in g && n in s.inHandler
    requires NodeInv(g, o, s, n) && s.running && s.attempts[n] < g[n].maxAttempts
    ensures Weight(g, Apply(g, s, Reject(n)), x) + (if x == n then 1 else 0) <= Weight(g, s, x)
  {}

  ghost predicate AllFall(g: Dag, s: State, s': State, n: NodeId, drop: nat) {
    forall x | x in g.Keys :: Weight(g, s', x) + (if x == n then drop else 0) <= Weight(g, s, x)
  }

  lemma BeginFalls(g: Dag, o: Oracle, s: State, a: Action, n: NodeId)
    requires s.status.Keys == s.attempts.Keys == g.Keys && n in g && g[n].maxAttempts >= 1
    requires (a == Acquire(n) && n in s.waiting) || (a == Reacquire(n) && n in s.backoff)
    requires NodeInv(g, o, s, n)
    ensures Measure(g, Apply(g, s, a)) < Measure(g, s)
  {
    var s' := Apply(g, s, a);
    forall x | x in g.Keys ensures Weight(g, s', x) + (if x == n then 2 else 0) <= Weight(g, s, x) {
      BeginWeight(g, o, s, a, n, x);
    }
    TotalFalls(g, s, s', g.Keys, n, 2);
  }

  lemma FinishFalls(g: Dag, limit: int, o: Oracle, s: State, n: NodeId, final: Status)
    requires Inv(g, limit, o, s) && n in g && n in s.inHandler && Terminal(final)
    ensures Measure(g, Finish(g, s, n, final)) < Measure(g, s)
  {
    var s' := Finish(g, s, n, final);
    assert AllFall(g, s, s', n, 2) by {
      forall x | x in g.Keys ensures Weight(g, s', x) + (if x == n then 2 else 0) <= Weight(g, s, x) {
        FinishWeight(g, o, s, n, final, x);
      }
    }
    TotalFalls(g, s, s', g.Keys, n, 2);
  }

  lemma BlockingFalls(g: Dag, o: Oracle, s: State, n: NodeId)
    requires s.status.Keys == s.attempts.Keys == g.Keys && n in g && n in s.inHandler && NodeInv(g, o, s, n)
    ensures Measure(g, FinishBlocking(g, s, n)) < Measure(g, s)
  {
    var s' := FinishBlocking(g, s, n);
    forall x | x in g.Keys ensures Weight(g, s', x) + (if x == n then 2 else 0) <= Weight(g, s, x) {
      BlockingWeight(g, o, s, n, x);
    }
    TotalFalls(g, s, s', g.Keys, n, 2);
  }

  lemma RetryFalls(g: Dag, o: Oracle, s: State, n: NodeId)
    requires s.status.Keys == s.attempts.Keys == g.Keys && n in g && n in s.inHandler && NodeInv(g, o, s, n)
    requires s.running && s.attempts[n] < g[n].maxAttempts
    ensures Measure(g, Apply(g, s, Reject(n))) < Measure(g, s)
  {
    var s' := Apply(g, s, Reject(n));
    forall x | x in g.Keys ensures Weight(g, s', x) + (if x == n then 1 else 0) <= Weight(g, s, x) {
      RetryWeight(g, o, s, n, x);
    }
    TotalFalls(g, s, s', g.Keys, n, 1);
  }

  lemma ReleaseFalls(g: Dag, s: State)
    requires s.finishing > 0
    ensures Measure(g, Apply(g, s, Release)) < Measure(g, s)
  {
    TotalFalls(g, s, Apply(g, s, Release), g.Keys, "", 0);
  }

  /** Every action but stopping uses up some of the measure. */
  lemma MeasureFalls(g: Dag, limit: int, o: Oracle, s: State, a: Action)
    requires forall n | n in g :: g[n].maxAttempts >= 1
    requires Inv(g, limit, o, s) && Enabled(g, limit, o, s, a) && a != Stop
    ensures Measure(g, Apply(g, s, a)) < Measure(g, s)
  {
    match a
    case Acquire(n) =>
      assert !Quiet(s, n);
      BeginFalls(g, o, s, a, n);
    case Reacquire(n) =>
      assert !Quiet(s, n);
      BeginFalls(g, o, s, a, n);
    case Resolve(n) =>
      HandlerInv(g, limit, o, s, n);
      FinishFalls(g, limit, o, s, n, Completed);
    case Reject(n) =>
      HandlerInv(g, limit, o, s, n);
      if s.running && s.attempts[n] < g[n].maxAttempts {
        RetryFalls(g, o, s, n);
      } else if g[n].continueOnError {
        FinishFalls(g, limit, o, s, n, Failed);
      } else {
        BlockingFalls(g, o, s, n);
      }
    case Release => ReleaseFalls(g, s);
  }

  lemma OnlyStopStops(g: Dag, limit: int, o: Oracle, s: State, a: Action)
    requires Enabled(g, limit, o, s, a) && a != Stop
    ensures Apply(g, s, a).running == s.running
  {}

  ghost predicate NeverStopped(actions: seq<Action>) {
    forall i | 0 <= i < |actions| :: actions[i] != Stop
  }

  /** Termination: a run that is not stopped has no more actions than the measure of its start. */
  lemma {:induction false} RunsAreFinite(g: Dag, rank: map<NodeId, nat>, limit: int, o: Oracle, entries: seq<NodeId>,
                                        actions: seq<Action>, states: seq<State>, k: nat)
    requires Runnable(g, rank, entries) && IsRun(g, limit, o, entries, actions, states)
    requires NeverStopped(actions) && k <= |actions|
    ensures k + Measure(g, states[k]) <= Measure(g, Init(g, entries)) && states[k].running
  {
    if k > 0 {
      RunsAreFinite(g, rank, limit, o, entries, actions, states, k - 1);
      RunInv(g, rank, limit, o, entries, actions, states, k - 1);
      assert Step(g, limit, o, states[k - 1], actions[k - 1], states[(k - 1) + 1]);
      MeasureFalls(g, limit, o, states[k - 1], actions[k - 1]);
    }
  }

  // ---- deadlock ----

  /** Some node is not terminal and nothing but `stop` can happen any more. */
  ghost predicate Stuck(g: Dag, limit: int, o: Oracle, s: State) {
    !AllDone(g, s) && forall a | a != Stop :: !Enabled(g, limit, o, s, a)
  }

  /** Nodes that may retry, none of which depends on another. */
  ghost predicate RetryAntichain(g: Dag, ids: set<NodeId>) {
    && (forall n | n in ids :: n in g && g[n].maxAttempts > 1)
    && (forall x, y | x in ids && y in ids :: !DependsOn(g, x, y))
  }

  lemma {:induction false} StartedAbove(g: Dag, limit: int, o: Oracle, s: State, p: seq<NodeId>)
    requires Inv(g, limit, o, s) && IsPath(g, p) && |p| >= 2
    requires p[0] in g && DepsSatisfied(g, s.status, p[0])
    ensures Satisfied(g, s.status, p[|p| - 1])
  {
    assert p[0 + 1] in g[p[0]].deps;
    if |p| > 2 {
      assert NodeInv(g, o, s, p[1]);
      TailIsPath(g, p);
      StartedAbove(g, limit, o, s, p[1..]);
    }
  }

  /** An idle node is, in the end, waiting for a node in backoff when nothing else is going on. */
  lemma {:induction false} IdleWaitsForBackoff(g: Dag, rank: map<NodeId, nat>, limit: int, o: Oracle, s: State,
                                               n: NodeId)
    returns (b: NodeId)
    requires Closed(g) && IsRank(g, rank) && Inv(g, limit, o, s)
    requires s.inHandler == multiset{} && s.waiting == multiset{}
    requires n in g && !Terminal(s.status[n]) && n !in s.backoff
    ensures b in s.backoff && DependsOn(g, n, b)
    decreases if n in rank then rank[n] else 0
  {
    assert NodeInv(g, o, s, n);
    var d :| d in g[n].deps && !Satisfied(g, s.status, d);
    assert !Bad(g, s.status, d) && NodeInv(g, o, s, d);
    PathStep(g, n, d);
    if d in s.backoff {
      b := d;
    } else {
      b := IdleWaitsForBackoff(g, rank, limit, o, s, d);
    }
  }

  ghost function Support(m: multiset<NodeId>): set<NodeId> {
    set n | n in m
  }

  lemma {:induction false} SupportSize(m: multiset<NodeId>)
    requires forall n :: m[n] <= 1
    ensures |Support(m)| == |m|
  {
    if m != multiset{} {
      var n :| n in m;
      SupportSize(m - multiset{n});
      assert Support(m) == Support(m - multiset{n}) + {n};
    } else {
      assert Support(m) == {};
    }
  }

  /** The nodes in backoff may all retry and do not depend on each other. */
  lemma BackoffIsAntichain(g: Dag, limit: int, o: Oracle, s: State)
    requires Inv(g, limit, o, s)
    ensures RetryAntichain(g, Support(s.backoff)) && |Support(s.backoff)| == |s.backoff|
  {
    forall n | n in s.backoff ensures n in g && s.backoff[n] == 1 && s.status[n] == Pending
        && g[n].maxAttempts > 1 && DepsSatisfied(g, s.status, n)
    {
      assert !Quiet(s, n) && NodeInv(g, o, s, n);
    }
    SupportSize(s.backoff);
    forall x, y | x in s.backoff && y in s.backoff ensures !DependsOn(g, x, y) {
      if DependsOn(g, x, y) {
        var p :| PathFromTo(g, p, x, y);
        StartedAbove(g, limit, o, s, p);
      }
    }
  }

  lemma HandlersCanSettle(g: Dag, limit: int, o: Oracle, s: State)
    requires Inv(g, limit, o, s)
    ensures forall n | n in s.inHandler :: Enabled(g, limit, o, s, Resolve(n)) || Enabled(g, limit, o, s, Reject(n))
  {
    assert forall n | n in s.inHandler :: !Quiet(s, n);
  }

  lemma FreeSlotIsTaken(g: Dag, limit: int, o: Oracle, s: State)
    requires s.active < limit
    ensures forall n | n in s.waiting :: Enabled(g, limit, o, s, Acquire(n))
    ensures forall n | n in s.backoff :: Enabled(g, limit, o, s, Reacquire(n))
  {}

  /** A stuck state has every slot held by a node in backoff. */
  lemma StuckMeansBackoff(g: Dag, rank: map<NodeId, nat>, limit: int, o: Oracle, s: State)
    requires Closed(g) && IsRank(g, rank) && Inv(g, limit, o, s) && Stuck(g, limit, o, s)
    ensures s.inHandler == multiset{} && s.finishing == 0 && limit <= |s.backoff| == s.active
  {
    HandlersCanSettle(g, limit, o, s);
    assert !Enabled(g, limit, o, s, Release);
    if s.active < limit {
      FreeSlotIsTaken(g, limit, o, s);
      var n :| n in g && !Terminal(s.status[n]);
      var b := IdleWaitsForBackoff(g, rank, limit, o, s, n);
    }
  }

  /** The condition, checkable on the definition: fewer retrying nodes can be underway at once than
      there are slots. */
  ghost predicate SlotsSuffice(g: Dag, limit: int) {
    forall ids: set<NodeId> | RetryAntichain(g, ids) :: |ids| < limit
  }

  /** Under that condition some action is always possible until all nodes are terminal. */
  lemma Progress(g: Dag, rank: map<NodeId, nat>, limit: int, o: Oracle, s: State)
    requires Closed(g) && IsRank(g, rank) && Inv(g, limit, o, s) && SlotsSuffice(g, limit)
    ensures !Stuck(g, limit, o, s)
  {
    if Stuck(g, limit, o, s) {
      StuckMeansBackoff(g, rank, limit, o, s);
      BackoffIsAntichain(g, limit, o, s);
    }
  }
}
