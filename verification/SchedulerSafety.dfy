/** What every reachable state of the scheduler satisfies, for every interleaving, every limit and every
    handler behaviour, including runs that are stopped. */
module SchedulerSafety {
  import opened Graph
  import opened SchedulerModel

  /** Attempts 1..k all fail. */
  ghost predicate AllFail(o: Oracle, n: NodeId, k: nat) {
    forall j: nat | 1 <= j <= k :: !o(n, j)
  }

  ghost predicate NoBadDep(g: Dag, status: map<NodeId, Status>, n: NodeId)
    requires n in g
  {
    forall d | d in g[n].deps :: !Bad(g, status, d)
  }

  /** No suspended call of any kind for `n`. */
  ghost predicate Quiet(s: State, n: NodeId) {
    s.waiting[n] == 0 && s.inHandler[n] == 0 && s.backoff[n] == 0
  }

  ghost predicate PendingInv(g: Dag, o: Oracle, s: State, n: NodeId)
    requires n in g && n in s.attempts
  {
    && s.inHandler[n] == 0
    && if s.waiting[n] > 0 then
         s.waiting[n] == 1 && s.backoff[n] == 0 && s.attempts[n] == 0 && DepsSatisfied(g, s.status, n)
       else if s.backoff[n] > 0 then
         && s.backoff[n] == 1 && 1 <= s.attempts[n] < g[n].maxAttempts
         && AllFail(o, n, s.attempts[n]) && DepsSatisfied(g, s.status, n)
       else
         s.attempts[n] == 0 && !DepsSatisfied(g, s.status, n) && NoBadDep(g, s.status, n)
  }

  /** Where a node stands, status by status. */
  ghost predicate NodeInv(g: Dag, o: Oracle, s: State, n: NodeId)
    requires n in g && n in s.status && n in s.attempts
  {
    match s.status[n]
    case Pending => PendingInv(g, o, s, n)
    case Running =>
      && s.inHandler[n] == 1 && s.waiting[n] == 0 && s.backoff[n] == 0
      && 1 <= s.attempts[n] <= g[n].maxAttempts && AllFail(o, n, s.attempts[n] - 1)
      && DepsSatisfied(g, s.status, n)
    case Completed =>
      && Quiet(s, n) && 1 <= s.attempts[n] <= g[n].maxAttempts
      && o(n, s.attempts[n]) && AllFail(o, n, s.attempts[n] - 1)
      && DepsSatisfied(g, s.status, n)
    case Failed =>
      && Quiet(s, n) && 1 <= s.attempts[n] <= g[n].maxAttempts
      && (s.running ==> s.attempts[n] == g[n].maxAttempts)
      && AllFail(o, n, s.attempts[n]) && DepsSatisfied(g, s.status, n)
    case Blocked => Quiet(s, n) && s.attempts[n] == 0 && !NoBadDep(g, s.status, n)
    case Skipped => false
  }

  ghost predicate SlotsInv(limit: int, s: State) {
    && s.active == |s.inHandler| + |s.backoff| + s.finishing
    && (s.active <= limit || s.active == 0)
  }

  /** The part of the invariant that does not look at single nodes. */
  ghost predicate Frame(g: Dag, limit: int, s: State) {
    && s.status.Keys == s.attempts.Keys == g.Keys
    && (forall n :: !Quiet(s, n) ==> n in g)
    && SlotsInv(limit, s)
  }

  ghost predicate Inv(g: Dag, limit: int, o: Oracle, s: State) {
    Frame(g, limit, s) && forall n | n in g :: NodeInv(g, o, s, n)
  }

  // ---- blocking ----

  lemma BlockableDirect(g: Dag, status: map<NodeId, Status>, x: NodeId, n: NodeId)
    requires x in g && n in g[x].deps && x in status && status[x] == Pending
    ensures Blockable(g, status, x, n)
  {
    assert PendingPath(g, status, [x, n], x, n);
  }

  lemma BlockableStep(g: Dag, status: map<NodeId, Status>, x: NodeId, y: NodeId, n: NodeId)
    requires x in g && y in g[x].deps && x in status && status[x] == Pending
    requires Blockable(g, status, y, n)
    ensures Blockable(g, status, x, n)
  {
    var p :| PendingPath(g, status, p, y, n);
    var q := [x] + p;
    forall i | 0 <= i < |q| - 1
      ensures q[i] in g && q[i + 1] in g[q[i]].deps && q[i] in status && status[q[i]] == Pending
    {
      if i > 0 { assert q[i] == p[i - 1] && q[i + 1] == p[(i - 1) + 1]; }
    }
    assert PendingPath(g, status, q, x, n);
  }

  lemma BlockableInv(g: Dag, status: map<NodeId, Status>, x: NodeId, n: NodeId) returns (y: NodeId)
    requires Blockable(g, status, x, n)
    ensures x in g && x in status && status[x] == Pending && y in g[x].deps
    ensures y == n || Blockable(g, status, y, n)
  {
    var p :| PendingPath(g, status, p, x, n);
    assert p[0] in g && p[0 + 1] in g[p[0]].deps;
    y := p[1];
    if |p| > 2 {
      var q := p[1..];
      TailIsPath(g, p);
      assert forall i | 0 <= i < |q| :: q[i] == p[i + 1];
      assert PendingPath(g, status, q, y, n);
    }
  }

  // ---- preservation, action by action ----

  /** The view of one node is the same in both states. */
  ghost predicate SameView(g: Dag, s: State, s': State, x: NodeId)
    requires x in g && x in s.status && x in s'.status && x in s.attempts && x in s'.attempts
  {
    && s'.status[x] == s.status[x] && s'.attempts[x] == s.attempts[x]
    && s'.waiting[x] == s.waiting[x] && s'.inHandler[x] == s.inHandler[x] && s'.backoff[x] == s.backoff[x]
    && s'.running == s.running
    && DepsSatisfied(g, s'.status, x) == DepsSatisfied(g, s.status, x)
    && NoBadDep(g, s'.status, x) == NoBadDep(g, s.status, x)
  }

  lemma SameViewKeeps(g: Dag, o: Oracle, s: State, s': State, x: NodeId)
    requires x in g && x in s.status && x in s'.status && x in s.attempts && x in s'.attempts
    requires SameView(g, s, s', x) && NodeInv(g, o, s, x)
    ensures NodeInv(g, o, s', x)
  {}

  /** Moving a node between pending and running changes no dependency's verdict. */
  lemma SameDeps(g: Dag, status: map<NodeId, Status>, n: NodeId, to: Status, x: NodeId)
    requires n in status && n in g && x in g && status[n] in {Pending, Running} && to in {Pending, Running}
    ensures DepsSatisfied(g, status[n := to], x) == DepsSatisfied(g, status, x)
    ensures NoBadDep(g, status[n := to], x) == NoBadDep(g, status, x)
  {
    assert forall d | d in g[x].deps :: Satisfied(g, status[n := to], d) == Satisfied(g, status, d);
    assert forall d | d in g[x].deps :: Bad(g, status[n := to], d) == Bad(g, status, d);
  }

  lemma BeginNode(g: Dag, o: Oracle, s: State, a: Action, n: NodeId, x: NodeId)
    requires s.status.Keys == s.attempts.Keys == g.Keys && n in g && x in g
    requires (a == Acquire(n) && n in s.waiting) || (a == Reacquire(n) && n in s.backoff)
    requires NodeInv(g, o, s, n) && NodeInv(g, o, s, x) && g[n].maxAttempts >= 1
    ensures NodeInv(g, o, Apply(g, s, a), x)
  {
    var s' := Apply(g, s, a);
    SameDeps(g, s.status, n, Running, x);
    if x != n {
      assert SameView(g, s, s', x);
      SameViewKeeps(g, o, s, s', x);
    }
  }

  lemma BeginFrame(g: Dag, limit: int, s: State, a: Action, n: NodeId)
    requires Frame(g, limit, s) && s.active < limit
    requires (a == Acquire(n) && n in s.waiting) || (a == Reacquire(n) && n in s.backoff)
    ensures n in g && Frame(g, limit, Apply(g, s, a))
  {
    assert !Quiet(s, n);
    var s' := Apply(g, s, a);
    forall x | !Quiet(s', x) ensures x in g {
      if x != n { assert !Quiet(s, x); }
    }
  }

  lemma RetryNode(g: Dag, o: Oracle, s: State, n: NodeId, x: NodeId)
    requires s.status.Keys == s.attempts.Keys == g.Keys && n in g && x in g && n in s.inHandler
    requires NodeInv(g, o, s, n) && NodeInv(g, o, s, x)
    requires s.running && s.attempts[n] < g[n].maxAttempts && !o(n, s.attempts[n])
    ensures NodeInv(g, o, Apply(g, s, Reject(n)), x)
  {
    var s' := Apply(g, s, Reject(n));
    SameDeps(g, s.status, n, Pending, x);
    if x != n {
      assert SameView(g, s, s', x);
      SameViewKeeps(g, o, s, s', x);
    }
  }

  /** A running node turns satisfied: its dependents gain, everyone else sees the same. */
  lemma GainedDeps(g: Dag, status: map<NodeId, Status>, n: NodeId, final: Status, x: NodeId)
    requires n in g && n in status && x in g && status[n] == Running
    requires final == Completed || (final == Failed && g[n].continueOnError)
    ensures n !in g[x].deps ==> DepsSatisfied(g, status[n := final], x) == DepsSatisfied(g, status, x)
    ensures NoBadDep(g, status[n := final], x) == NoBadDep(g, status, x)
    ensures n in g[x].deps ==> !DepsSatisfied(g, status, x)
  {
    var after := status[n := final];
    assert forall d | d in g[x].deps :: Bad(g, after, d) == Bad(g, status, d);
    if n in g[x].deps {
      assert !Satisfied(g, status, n);
    } else {
      assert forall d | d in g[x].deps :: Satisfied(g, after, d) == Satisfied(g, status, d);
    }
  }

  lemma FinishNode(g: Dag, o: Oracle, s: State, n: NodeId, final: Status, x: NodeId)
    requires s.status.Keys == s.attempts.Keys == g.Keys && n in g && x in g && n in s.inHandler
    requires NodeInv(g, o, s, n) && NodeInv(g, o, s, x) && n !in g[n].deps
    requires final in {Completed, Failed} && o(n, s.attempts[n]) == (final == Completed)
    requires final == Failed ==> g[n].continueOnError && (s.running ==> s.attempts[n] == g[n].maxAttempts)
    ensures NodeInv(g, o, Finish(g, s, n, final), x)
  {
    var s' := Finish(g, s, n, final);
    GainedDeps(g, s.status, n, final, x);
    if x == n {
    } else if x in ReadyDependents(g, s'.status, n) {
    } else if n in g[x].deps {
    } else {
      assert SameView(g, s, s', x);
      SameViewKeeps(g, o, s, s', x);
    }
  }

  lemma LeaveHandlerFrame(g: Dag, limit: int, s: State, s': State, n: NodeId)
    requires Frame(g, limit, s) && n in s.inHandler && s'.active == s.active
    requires s'.status.Keys == s.status.Keys && s'.attempts == s.attempts
    requires s'.inHandler == s.inHandler - multiset{n}
    requires (s'.backoff == s.backoff + multiset{n} && s'.finishing == s.finishing)
          || (s'.backoff == s.backoff && s'.finishing == s.finishing + 1)
    requires forall x :: s'.waiting[x] > s.waiting[x] ==> x in g
    ensures Frame(g, limit, s')
  {
    assert !Quiet(s, n);
    forall x | !Quiet(s', x) ensures x in g {
      if x != n && s'.waiting[x] <= s.waiting[x] { assert !Quiet(s, x); }
    }
  }

  /** Blocking satisfies no dependency and takes no verdict back. */
  lemma BlockingDeps(g: Dag, status: map<NodeId, Status>, n: NodeId, x: NodeId)
    requires n in g && n in status && x in g && status[n] == Running && !g[n].continueOnError
    ensures var after := MarkBlocked(g, status[n := Failed], n);
      && DepsSatisfied(g, after, x) == DepsSatisfied(g, status, x)
      && (NoBadDep(g, after, x) ==> NoBadDep(g, status, x))
  {
    var mid := status[n := Failed];
    var after := MarkBlocked(g, mid, n);
    forall d | d in g[x].deps
      ensures Satisfied(g, after, d) == Satisfied(g, status, d) && (Bad(g, status, d) ==> Bad(g, after, d))
    {
      if d in status && Blockable(g, mid, d, n) { var _ := BlockableInv(g, mid, d, n); }
    }
  }

  /** A pending node with a newly bad dependency is itself blocked. */
  lemma BlockingReaches(g: Dag, status: map<NodeId, Status>, n: NodeId, x: NodeId)
    requires n in g && n in status && x in g && x in status && x != n && status[x] == Pending
    requires status[n] == Running && NoBadDep(g, status, x)
    requires !Blockable(g, status[n := Failed], x, n)
    ensures NoBadDep(g, MarkBlocked(g, status[n := Failed], n), x)
  {
    var mid := status[n := Failed];
    var after := MarkBlocked(g, mid, n);
    forall d | d in g[x].deps ensures !Bad(g, after, d) {
      if d == n {
        BlockableDirect(g, mid, x, n);
      } else if d in status && Blockable(g, mid, d, n) {
        BlockableStep(g, mid, x, d, n);
      } else {
        assert !Bad(g, status, d);
      }
    }
  }

  /** A node that gets blocked was idle: it was waiting for a dependency. */
  lemma BlockedWasIdle(g: Dag, o: Oracle, s: State, n: NodeId, x: NodeId)
    requires s.status.Keys == s.attempts.Keys == g.Keys && n in g && x in g
    requires s.status[n] == Running && NodeInv(g, o, s, x) && !g[n].continueOnError
    requires Blockable(g, s.status[n := Failed], x, n)
    ensures x != n && s.status[x] == Pending && Quiet(s, x) && s.attempts[x] == 0
    ensures !NoBadDep(g, MarkBlocked(g, s.status[n := Failed], n), x)
  {
    var mid := s.status[n := Failed];
    var y := BlockableInv(g, mid, x, n);
    if y != n { var _ := BlockableInv(g, mid, y, n); }
    assert !Satisfied(g, s.status, y);
    assert Bad(g, MarkBlocked(g, mid, n), y);
  }

  lemma BlockingNode(g: Dag, o: Oracle, s: State, n: NodeId, x: NodeId)
    requires s.status.Keys == s.attempts.Keys == g.Keys && n in g && x in g && n in s.inHandler
    requires NodeInv(g, o, s, n) && NodeInv(g, o, s, x) && n !in g[n].deps && !g[n].continueOnError
    requires !o(n, s.attempts[n]) && (s.running ==> s.attempts[n] == g[n].maxAttempts)
    ensures NodeInv(g, o, FinishBlocking(g, s, n), x)
  {
    var s' := FinishBlocking(g, s, n);
    var mid := s.status[n := Failed];
    BlockingDeps(g, s.status, n, x);
    if Blockable(g, mid, x, n) {
      BlockedWasIdle(g, o, s, n, x);
    } else if x != n && s.status[x] == Pending && NoBadDep(g, s.status, x) {
      BlockingReaches(g, s.status, n, x);
    }
  }

  // ---- every action keeps the invariant ----

  lemma NotOwnDependency(g: Dag, rank: map<NodeId, nat>, n: NodeId)
    requires IsRank(g, rank) && n in g
    ensures n !in g[n].deps
  {
    forall d | d in g[n].deps ensures d != n { RankOfDependency(g, rank, n, d); }
  }

  lemma HandlerInv(g: Dag, limit: int, o: Oracle, s: State, n: NodeId)
    requires Inv(g, limit, o, s) && n in s.inHandler
    ensures n in g && NodeInv(g, o, s, n)
  {
    assert !Quiet(s, n);
  }

  lemma RejectKeeps(g: Dag, rank: map<NodeId, nat>, limit: int, o: Oracle, s: State, n: NodeId)
    requires IsRank(g, rank) && Inv(g, limit, o, s) && Enabled(g, limit, o, s, Reject(n))
    ensures Inv(g, limit, o, Apply(g, s, Reject(n)))
  {
    HandlerInv(g, limit, o, s, n);
    NotOwnDependency(g, rank, n);
    var s' := Apply(g, s, Reject(n));
    LeaveHandlerFrame(g, limit, s, s', n);
    forall x | x in g ensures NodeInv(g, o, s', x) {
      if s.running && s.attempts[n] < g[n].maxAttempts {
        RetryNode(g, o, s, n, x);
      } else if g[n].continueOnError {
        FinishNode(g, o, s, n, Failed, x);
      } else {
        BlockingNode(g, o, s, n, x);
      }
    }
  }

  lemma ResolveKeeps(g: Dag, rank: map<NodeId, nat>, limit: int, o: Oracle, s: State, n: NodeId)
    requires IsRank(g, rank) && Inv(g, limit, o, s) && Enabled(g, limit, o, s, Resolve(n))
    ensures Inv(g, limit, o, Apply(g, s, Resolve(n)))
  {
    HandlerInv(g, limit, o, s, n);
    NotOwnDependency(g, rank, n);
    LeaveHandlerFrame(g, limit, s, Finish(g, s, n, Completed), n);
    forall x | x in g ensures NodeInv(g, o, Finish(g, s, n, Completed), x) {
      FinishNode(g, o, s, n, Completed, x);
    }
  }

  lemma BeginKeeps(g: Dag, limit: int, o: Oracle, s: State, a: Action, n: NodeId)
    requires Inv(g, limit, o, s) && Enabled(g, limit, o, s, a) && (a == Acquire(n) || a == Reacquire(n))
    requires forall x | x in g :: g[x].maxAttempts >= 1
    ensures Inv(g, limit, o, Apply(g, s, a))
  {
    BeginFrame(g, limit, s, a, n);
    forall x | x in g ensures NodeInv(g, o, Apply(g, s, a), x) {
      BeginNode(g, o, s, a, n, x);
    }
  }

  lemma OtherKeeps(g: Dag, limit: int, o: Oracle, s: State, a: Action)
    requires Inv(g, limit, o, s) && Enabled(g, limit, o, s, a) && (a == Release || a == Stop)
    ensures Inv(g, limit, o, Apply(g, s, a))
  {
    var s' := Apply(g, s, a);
    assert forall x :: Quiet(s', x) == Quiet(s, x);
    forall x | x in g ensures NodeInv(g, o, s', x) {
      assert NodeInv(g, o, s, x);
    }
  }

  /** Every action of the scheduler keeps the invariant. */
  lemma StepKeeps(g: Dag, rank: map<NodeId, nat>, limit: int, o: Oracle, entries: seq<NodeId>, s: State, a: Action)
    requires Runnable(g, rank, entries) && Inv(g, limit, o, s) && Enabled(g, limit, o, s, a)
    ensures Inv(g, limit, o, Apply(g, s, a))
  {
    match a
    case Acquire(n) => BeginKeeps(g, limit, o, s, a, n);
    case Reacquire(n) => BeginKeeps(g, limit, o, s, a, n);
    case Resolve(n) => ResolveKeeps(g, rank, limit, o, s, n);
    case Reject(n) => RejectKeeps(g, rank, limit, o, s, n);
    case Release => OtherKeeps(g, limit, o, s, a);
    case Stop => OtherKeeps(g, limit, o, s, a);
  }

  // ---- whole runs ----

  lemma {:induction false} ExecutableCount(g: Dag, status: map<NodeId, Status>, ids: seq<NodeId>, n: NodeId)
    ensures multiset(Executable(g, status, ids))[n] == if CanExecute(g, status, n) then multiset(ids)[n] else 0
  {
    if ids != [] {
      var here := if CanExecute(g, status, ids[0]) then [ids[0]] else [];
      ExecutableCount(g, status, ids[1..], n);
      assert multiset(Executable(g, status, ids)) == multiset(here) + multiset(Executable(g, status, ids[1..]));
      assert ids == [ids[0]] + ids[1..];
      assert multiset(ids) == multiset{ids[0]} + multiset(ids[1..]);
    }
  }

  lemma RootsWait(g: Dag, rank: map<NodeId, nat>, entries: seq<NodeId>, n: NodeId)
    requires Runnable(g, rank, entries)
    ensures Init(g, entries).waiting[n] == if n in g && g[n].deps == {} then 1 else 0
  {
    var s := Init(g, entries);
    ExecutableCount(g, s.status, entries, n);
    if n in g && g[n].deps != {} {
      var d :| d in g[n].deps;
      assert !Satisfied(g, s.status, d);
    }
  }

  lemma InitInv(g: Dag, rank: map<NodeId, nat>, limit: int, o: Oracle, entries: seq<NodeId>)
    requires Runnable(g, rank, entries)
    ensures Inv(g, limit, o, Init(g, entries))
  {
    var s := Init(g, entries);
    forall n ensures s.waiting[n] == if n in g && g[n].deps == {} then 1 else 0 { RootsWait(g, rank, entries, n); }
    forall n | n in g ensures NodeInv(g, o, s, n) {
      if g[n].deps != {} {
        var d :| d in g[n].deps;
        assert !Satisfied(g, s.status, d);
      }
    }
  }

  /** Every state of every run satisfies the invariant. */
  lemma {:induction false} RunInv(g: Dag, rank: map<NodeId, nat>, limit: int, o: Oracle, entries: seq<NodeId>,
                                 actions: seq<Action>, states: seq<State>, k: nat)
    requires Runnable(g, rank, entries) && IsRun(g, limit, o, entries, actions, states) && k <= |actions|
    ensures Inv(g, limit, o, states[k])
  {
    if k == 0 {
      InitInv(g, rank, limit, o, entries);
    } else {
      RunInv(g, rank, limit, o, entries, actions, states, k - 1);
      assert Step(g, limit, o, states[k - 1], actions[k - 1], states[(k - 1) + 1]);
      StepKeeps(g, rank, limit, o, entries, states[k - 1], actions[k - 1]);
    }
  }

  ghost predicate HardFailed(g: Dag, status: map<NodeId, Status>, n: NodeId) {
    n in g && n in status && status[n] == Failed && !g[n].continueOnError
  }

  lemma PathStep(g: Dag, n: NodeId, d: NodeId)
    requires n in g && d in g[n].deps
    ensures DependsOn(g, n, d)
    ensures forall e :: DependsOn(g, d, e) ==> DependsOn(g, n, e)
  {
    assert PathFromTo(g, [n, d], n, d);
    forall e | DependsOn(g, d, e) ensures DependsOn(g, n, e) {
      var p :| PathFromTo(g, p, d, e);
      var q := [n] + p;
      forall i | 0 <= i < |q| - 1 ensures q[i] in g && q[i + 1] in g[q[i]].deps {
        if i > 0 { assert q[i] == p[i - 1] && q[i + 1] == p[(i - 1) + 1]; }
      }
      assert PathFromTo(g, q, n, e);
    }
  }

  /** A blocked node has a failed node without continueOnError among what it depends on. */
  lemma {:induction false} BlockedHasCause(g: Dag, rank: map<NodeId, nat>, limit: int, o: Oracle, s: State, n: NodeId)
    returns (cause: NodeId)
    requires IsRank(g, rank) && Inv(g, limit, o, s) && n in g && s.status[n] == Blocked
    ensures DependsOn(g, n, cause) && HardFailed(g, s.status, cause)
    decreases if n in rank then rank[n] else 0
  {
    assert NodeInv(g, o, s, n);
    var d :| d in g[n].deps && Bad(g, s.status, d);
    PathStep(g, n, d);
    if s.status[d] == Blocked {
      cause := BlockedHasCause(g, rank, limit, o, s, d);
    } else {
      cause := d;
    }
  }

  /** Everything that depends on a bad node is blocked. */
  lemma {:induction false} BadBlocks(g: Dag, limit: int, o: Oracle, s: State, p: seq<NodeId>)
    requires Inv(g, limit, o, s) && IsPath(g, p) && |p| >= 2 && Bad(g, s.status, p[|p| - 1])
    ensures p[0] in g && s.status[p[0]] == Blocked
  {
    assert p[0] in g && p[0 + 1] in g[p[0]].deps;
    if |p| > 2 {
      TailIsPath(g, p);
      BadBlocks(g, limit, o, s, p[1..]);
    }
    assert Bad(g, s.status, p[1]);
    assert NodeInv(g, o, s, p[0]);
  }

  ghost predicate BlockedExactly(g: Dag, s: State)
    requires s.status.Keys == g.Keys
  {
    forall n | n in g ::
      s.status[n] == Blocked <==> exists c :: DependsOn(g, n, c) && HardFailed(g, s.status, c)
  }

  lemma BlockedIsDescendants(g: Dag, rank: map<NodeId, nat>, limit: int, o: Oracle, s: State)
    requires IsRank(g, rank) && Inv(g, limit, o, s)
    ensures BlockedExactly(g, s)
  {
    forall n | n in g
      ensures s.status[n] == Blocked <==> exists c :: DependsOn(g, n, c) && HardFailed(g, s.status, c)
    {
      if s.status[n] == Blocked {
        var c := BlockedHasCause(g, rank, limit, o, s, n);
      }
      if c :| DependsOn(g, n, c) && HardFailed(g, s.status, c) {
        var p :| PathFromTo(g, p, n, c);
        BadBlocks(g, limit, o, s, p);
      }
    }
  }

  function RunningNodes(g: Dag, s: State): set<NodeId> {
    set n | n in g && n in s.status && s.status[n] == Running
  }

  /** Distinct elements of a multiset are at most as many as its elements. */
  lemma {:induction false} SupportBound(ids: set<NodeId>, m: multiset<NodeId>)
    requires forall n | n in ids :: n in m
    ensures |ids| <= |m|
  {
    if ids != {} {
      var n :| n in ids;
      SupportBound(ids - {n}, m - multiset{n});
    }
  }

  /** A node on which work has begun, or is about to, once a slot is free. */
  predicate Underway(s: State, n: NodeId) {
    n in s.waiting || n in s.inHandler || n in s.backoff
  }

  ghost predicate NodeSafe(g: Dag, s: State, n: NodeId)
    requires n in g && n in s.status && n in s.attempts
  {
    // no node is scheduled twice
    && s.waiting[n] + s.inHandler[n] + s.backoff[n] <= 1
    // a node underway, or through, had all its dependencies satisfied
    && (Underway(s, n) || s.attempts[n] > 0 ==> DepsSatisfied(g, s.status, n))
    // a node underway is never blocked, and a blocked node was never started
    && (s.status[n] == Blocked ==> !Underway(s, n) && s.attempts[n] == 0)
    && s.attempts[n] <= g[n].maxAttempts
    && (s.status[n] == Running <==> n in s.inHandler)
  }

  /** Run safety: at every point of every run, stopped or not, slots are respected, no node is
      scheduled twice, dependencies come first, attempts are bounded, and the blocked nodes are exactly
      those that depend on a node that failed without continueOnError. */
  lemma RunSafety(g: Dag, rank: map<NodeId, nat>, limit: int, o: Oracle, entries: seq<NodeId>,
                  actions: seq<Action>, states: seq<State>, k: nat)
    requires Runnable(g, rank, entries) && IsRun(g, limit, o, entries, actions, states) && k <= |actions|
    ensures var s := states[k];
      && s.status.Keys == s.attempts.Keys == g.Keys
      && |RunningNodes(g, s)| <= s.active
      && (s.active <= limit || s.active == 0)
      && (forall n | n in g :: NodeSafe(g, s, n))
      && BlockedExactly(g, s)
  {
    var s := states[k];
    RunInv(g, rank, limit, o, entries, actions, states, k);
    BlockedIsDescendants(g, rank, limit, o, s);
    assert forall n | n in g :: NodeInv(g, o, s, n);
    SupportBound(RunningNodes(g, s), s.inHandler);
    forall n | n in g ensures NodeSafe(g, s, n) {
      assert NodeInv(g, o, s, n);
    }
  }
}
