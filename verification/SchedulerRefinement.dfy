/** Without a shortcut, a scheduler whose handlers may throw at once does nothing that the scheduler with
    asynchronous handlers could not do: every run of the one follows a run of the other. */
module SchedulerRefinement {
  import opened Common
  import opened Graph
  import opened SchedulerModel
  import opened SchedulerSafety
  import opened SchedulerProgress
  import opened SchedulerStack

  /** The nodes that may run and have not been scheduled yet. */
  ghost function Ready(g: Dag, s: State): set<NodeId> {
    set n | n in g && CanExecute(g, s.status, n) && Quiet(s, n)
  }

  /** The state as the machine without a call stack sees it: what the loops under way are going to schedule is
      waiting already. */
  ghost function Abs(g: Dag, s: State): State {
    s.(waiting := s.waiting + multiset(Ready(g, s)))
  }

  /** The same state but for calls that are not waiting yet. */
  ghost predicate Below(s: State, t: State) {
    && s.status == t.status && s.attempts == t.attempts && s.inHandler == t.inHandler && s.backoff == t.backoff
    && s.finishing == t.finishing && s.active == t.active && s.running == t.running && s.waiting <= t.waiting
  }

  lemma BelowAbs(g: Dag, s: State)
    ensures Below(s, Abs(g, s))
  {}

  /** A state that satisfies the invariant is the view of any state with fewer calls waiting. */
  lemma AbsIs(e: Env, s: State, t: State)
    requires Inv(e.g, e.limit, Outcomes(e), t) && Below(s, t)
    ensures Abs(e.g, s) == t
  {
    var w := s.waiting + multiset(Ready(e.g, s));
    forall n ensures w[n] == t.waiting[n] {
      if n in e.g {
        assert NodeInv(e.g, Outcomes(e), t, n);
      } else {
        assert Quiet(t, n);
      }
    }
    assert w == t.waiting;
  }

  /** A sequence of actions, each possible where it is taken. */
  ghost predicate Follows(e: Env, t: State, acts: seq<Action>, t': State)
    decreases |acts|
  {
    if acts == [] then t' == t
    else Enabled(e.g, e.limit, Outcomes(e), t, acts[0]) && Follows(e, Apply(e.g, t, acts[0]), acts[1..], t')
  }

  /** The action `a`, if any, and then perhaps a rejection. */
  ghost predicate Brief(acts: seq<Action>, a: Action) {
    |acts| <= 2 && (|acts| >= 1 ==> acts[0] == a) && (|acts| == 2 ==> acts[1].Reject?)
  }

  lemma BriefGoesOn(acts: seq<Action>, a: Action)
    requires Brief(acts, a)
    ensures a != Stop ==> NeverStopped(acts)
  {}

  lemma FollowsOne(e: Env, t: State, a: Action, t': State)
    requires Enabled(e.g, e.limit, Outcomes(e), t, a) && t' == Apply(e.g, t, a)
    ensures Follows(e, t, [a], t')
  {
    assert [a][1..] == [];
  }

  lemma FollowsTwo(e: Env, t: State, a: Action, t1: State, b: Action, t2: State)
    requires Enabled(e.g, e.limit, Outcomes(e), t, a) && t1 == Apply(e.g, t, a)
    requires Enabled(e.g, e.limit, Outcomes(e), t1, b) && t2 == Apply(e.g, t1, b)
    ensures Follows(e, t, [a, b], t2)
  {
    FollowsOne(e, t1, b, t2);
    assert [a, b][1..] == [b];
  }

  lemma SoundIsRunnable(e: Env, rank: map<NodeId, nat>, entries: seq<NodeId>)
    requires Sound(e, rank, entries)
    ensures Runnable(e.g, rank, entries)
  {}

  // ---- one event, seen without the stack ----

  lemma CaughtBelow(e: Env, s: State, stack: seq<Frame>, t: State, n: NodeId)
    requires Below(s, t) && n in e.g && n in s.attempts
    ensures Below(Caught(e, s, stack, n).s, Apply(e.g, t, Reject(n)))
  {
    if s.running && s.attempts[n] < e.g[n].maxAttempts {
      RetryBelow(e.g, s, t, n);
    } else if e.g[n].continueOnError {
      FinishBelow(e.g, s, t, n, Failed);
    } else {
      BlockBelow(e.g, s, t, n);
    }
  }

  lemma RetryBelow(g: Dag, s: State, t: State, n: NodeId)
    requires Below(s, t) && n in g && n in s.attempts && s.running && s.attempts[n] < g[n].maxAttempts
    ensures Below(Apply(g, s, Reject(n)), Apply(g, t, Reject(n)))
  {}

  lemma BlockBelow(g: Dag, s: State, t: State, n: NodeId)
    requires Below(s, t)
    ensures Below(FinishBlocking(g, s, n), FinishBlocking(g, t, n))
  {}

  lemma FinishBelow(g: Dag, s: State, t: State, n: NodeId, final: Status)
    requires Below(s, t)
    ensures Below(Leave(s, n, final), Finish(g, t, n, final))
  {}

  lemma BeginBelow(e: Env, s: State, t: State, n: NodeId)
    requires Below(s, t) && n in s.attempts && s.waiting + multiset{n} <= t.waiting
    ensures Below(Begin(s, n), Apply(e.g, t, Acquire(n)))
  {}

  /** The catch block is a rejection. */
  lemma CaughtIsReject(e: Env, rank: map<NodeId, nat>, entries: seq<NodeId>, s: State, stack: seq<Frame>, t: State,
                       n: NodeId)
    requires Sound(e, rank, entries) && Inv(e.g, e.limit, Outcomes(e), t)
    requires Below(s, t)
    requires n in e.g && n in s.attempts && Enabled(e.g, e.limit, Outcomes(e), t, Reject(n))
    ensures Abs(e.g, Caught(e, s, stack, n).s) == Apply(e.g, t, Reject(n))
    ensures Inv(e.g, e.limit, Outcomes(e), Apply(e.g, t, Reject(n)))
  {
    SoundIsRunnable(e, rank, entries);
    StepKeeps(e.g, rank, e.limit, Outcomes(e), entries, t, Reject(n));
    CaughtBelow(e, s, stack, t, n);
    AbsIs(e, Caught(e, s, stack, n).s, Apply(e.g, t, Reject(n)));
  }

  /** Starting a node is taking a slot, and a rejection on top if the handler throws at once. */
  lemma CalledIsAcquire(e: Env, rank: map<NodeId, nat>, entries: seq<NodeId>, s: State, stack: seq<Frame>,
                        t: State, a: Action, n: NodeId) returns (acts: seq<Action>)
    requires Sound(e, rank, entries) && Inv(e.g, e.limit, Outcomes(e), t)
    requires (a == Acquire(n) || a == Reacquire(n)) && Enabled(e.g, e.limit, Outcomes(e), t, a)
    requires n in e.g && n in s.attempts
    requires Below(s, Apply(e.g, t, a))
    ensures var c' := Called(e, s, stack, n);
      Follows(e, t, acts, Abs(e.g, c'.s)) && Inv(e.g, e.limit, Outcomes(e), Abs(e.g, c'.s))
    ensures acts == if e.throws(n, s.attempts[n]) then [a, Reject(n)] else [a]
  {
    SoundIsRunnable(e, rank, entries);
    StepKeeps(e.g, rank, e.limit, Outcomes(e), entries, t, a);
    var t1 := Apply(e.g, t, a);
    if e.throws(n, s.attempts[n]) {
      assert n in t1.inHandler;
      CaughtIsReject(e, rank, entries, s, stack, t1, n);
      FollowsTwo(e, t, a, t1, Reject(n), Apply(e.g, t1, Reject(n)));
      acts := [a, Reject(n)];
    } else {
      AbsIs(e, s, t1);
      FollowsOne(e, t, a, t1);
      acts := [a];
    }
  }

  /** One turn of a loop, seen without the stack. */
  lemma VisitIs(e: Env, rank: map<NodeId, nat>, entries: seq<NodeId>, c: Config) returns (acts: seq<Action>)
    requires Sound(e, rank, entries) && Known(e, c.s) && c.stack != [] && Inv(e.g, e.limit, Outcomes(e), Abs(e.g, c.s))
    requires c.stack[0].rest != [] && CanExecute(e.g, c.s.status, c.stack[0].rest[0]) ==> Quiet(c.s, c.stack[0].rest[0])
    ensures var c' := Visited(e, c);
      Follows(e, Abs(e.g, c.s), acts, Abs(e.g, c'.s)) && Inv(e.g, e.limit, Outcomes(e), Abs(e.g, c'.s))
    ensures c.stack[0].rest != [] ==> Brief(acts, Acquire(c.stack[0].rest[0]))
    ensures acts == [] ==> Size(Visited(e, c).stack) < Size(c.stack)
  {
    var c', t := Visited(e, c), Abs(e.g, c.s);
    SizeFalls(c.stack);
    acts := [];
    if c.stack[0].rest != [] && CanExecute(e.g, c.s.status, c.stack[0].rest[0]) {
      var x := c.stack[0].rest[0];
      assert x in Ready(e.g, c.s);
      BelowAbs(e.g, c.s);
      assert c.s.waiting + multiset{x} <= t.waiting;
      if c.s.active >= e.limit {
        AbsIs(e, c'.s, t);
      } else {
        BeginBelow(e, c.s, t, x);
        acts := CalledIsAcquire(e, rank, entries, Begin(c.s, x), Popped(c.stack), t, Acquire(x), x);
      }
    }
  }

  /** With no loop under way nothing is left to schedule, and the view is the state itself. */
  lemma NothingReady(g: Dag, s: State)
    requires Ready(g, s) == {}
    ensures Abs(g, s) == s
  {}

  /** A handler that settles, seen without the stack. */
  lemma SettledIs(e: Env, rank: map<NodeId, nat>, entries: seq<NodeId>, s: State, a: Action, s': State)
    requires Sound(e, rank, entries) && Inv(e.g, e.limit, Outcomes(e), s) && Enabled(e.g, e.limit, Outcomes(e), s, a)
    requires Below(s', Apply(e.g, s, a))
    ensures Follows(e, s, [a], Abs(e.g, s')) && Inv(e.g, e.limit, Outcomes(e), Abs(e.g, s'))
  {
    SoundIsRunnable(e, rank, entries);
    StepKeeps(e.g, rank, e.limit, Outcomes(e), entries, s, a);
    AbsIs(e, s', Apply(e.g, s, a));
    FollowsOne(e, s, a, Apply(e.g, s, a));
  }

  lemma BelowItself(s: State)
    ensures Below(s, s)
  {}

  lemma AsyncKnown(e: Env, s: State, a: Action)
    requires Inv(e.g, e.limit, Outcomes(e), s) && Enabled(e.g, e.limit, Outcomes(e), s, a) && a != Release && a != Stop
    ensures a.n in e.g && a.n in s.attempts
  {
    assert !Quiet(s, a.n);
  }

  /** A suspended call that goes on, seen without the stack. */
  lemma AsyncIs(e: Env, rank: map<NodeId, nat>, entries: seq<NodeId>, c: Config, a: Action) returns (acts: seq<Action>)
    requires Sound(e, rank, entries) && Known(e, c.s) && Possible(e, c, Async(a))
    requires Inv(e.g, e.limit, Outcomes(e), c.s)
    ensures var c' := After(e, c, Async(a));
      Follows(e, c.s, acts, Abs(e.g, c'.s)) && Inv(e.g, e.limit, Outcomes(e), Abs(e.g, c'.s))
    ensures acts != [] && Brief(acts, a)
  {
    var s, s' := c.s, Apply(e.g, c.s, a);
    acts := [a];
    match a {
      case Resolve(n) =>
        BelowItself(s);
        FinishBelow(e.g, s, s, n, Completed);
        SettledIs(e, rank, entries, s, a, Leave(s, n, Completed));
      case Reject(n) =>
        AsyncKnown(e, s, a);
        BelowItself(s);
        CaughtBelow(e, s, [], s, n);
        SettledIs(e, rank, entries, s, a, Caught(e, s, [], n).s);
      case Acquire(n) =>
        AsyncKnown(e, s, a);
        BelowItself(s');
        acts := CalledIsAcquire(e, rank, entries, s', [], s, a, n);
      case Reacquire(n) =>
        AsyncKnown(e, s, a);
        BelowItself(s');
        acts := CalledIsAcquire(e, rank, entries, s', [], s, a, n);
      case Release =>
        BelowItself(s');
        SettledIs(e, rank, entries, s, a, s');
      case Stop =>
        BelowItself(s');
        SettledIs(e, rank, entries, s, a, s');
    }
  }

  // ---- what the stack looks like ----

  /** A candidate still to come has not been touched. */
  ghost predicate Untouched(e: Env, s: State, x: NodeId) {
    x in e.g && x in s.attempts && s.attempts[x] == 0 && Quiet(s, x)
  }

  ghost predicate FrameOk(e: Env, s: State, f: Frame) {
    && Distinct(f.rest) && (forall x | x in f.rest :: Untouched(e, s, x))
    && match f.owner
       case None => forall x | x in f.rest :: e.g[x].deps == {}
       case Some(n) => Satisfied(e.g, s.status, n) && IsRestOf(e, n, f.rest)
  }

  ghost predicate Distinct(list: seq<NodeId>) {
    forall i, j | 0 <= i < j < |list| :: list[i] != list[j]
  }

  lemma OnceIsDistinct(list: seq<NodeId>)
    requires forall x :: multiset(list)[x] <= 1
    ensures Distinct(list)
  {
    forall i, j | 0 <= i < j < |list| ensures list[i] != list[j] {
      var a, b := list[..j], list[j..];
      assert list == a + b;
      assert multiset(list) == multiset(a) + multiset(b);
      assert multiset(a)[a[i]] >= 1 && multiset(b)[b[0]] >= 1;
      assert multiset(list)[list[j]] == multiset(a)[list[j]] + multiset(b)[list[j]];
    }
  }

  ghost predicate IsRestOf(e: Env, n: NodeId, rest: seq<NodeId>) {
    exists k :: 0 <= k <= |Listed(e.g, e.ids, n)| && rest == Listed(e.g, e.ids, n)[k..]
  }

  /** Inner loops belong to nodes that depend on those of the outer ones. */
  ghost predicate Nested(g: Dag, stack: seq<Frame>) {
    forall i, j | 0 <= i < j < |stack| :: Inside(g, stack[i], stack[j])
  }

  ghost predicate Inside(g: Dag, inner: Frame, outer: Frame) {
    inner.owner.Some? && (outer.owner.Some? ==> DependsOn(g, inner.owner.value, outer.owner.value))
  }

  /** Whatever let its dependents go on since `n` ended threw at once. */
  ghost predicate InstantAbove(e: Env, throwers: set<NodeId>, status: map<NodeId, Status>, n: NodeId) {
    forall d | DependsOn(e.g, d, n) && Satisfied(e.g, status, d) :: d in throwers && d in e.g && e.g[d].continueOnError
  }

  ghost predicate FramesOk(e: Env, s: State, stack: seq<Frame>) {
    forall i | 0 <= i < |stack| :: FrameOk(e, s, stack[i])
  }

  ghost predicate AllInstant(e: Env, throwers: set<NodeId>, status: map<NodeId, Status>, stack: seq<Frame>) {
    forall i | 0 <= i < |stack| && stack[i].owner.Some? :: InstantAbove(e, throwers, status, stack[i].owner.value)
  }

  ghost predicate StackInv(e: Env, throwers: set<NodeId>, c: Config) {
    && Known(e, c.s) && Inv(e.g, e.limit, Outcomes(e), Abs(e.g, c.s))
    && FramesOk(e, c.s, c.stack) && Nested(e.g, c.stack) && AllInstant(e, throwers, c.s.status, c.stack)
    && (forall x | x in Ready(e.g, c.s) :: InLoop(c.stack, x))
  }

  ghost predicate InLoop(stack: seq<Frame>, x: NodeId) {
    exists i :: 0 <= i < |stack| && x in stack[i].rest
  }

  lemma {:induction false} Transitive(g: Dag, a: NodeId, b: NodeId, c: NodeId)
    requires DependsOn(g, a, b) && DependsOn(g, b, c)
    ensures DependsOn(g, a, c)
  {
    var p :| PathFromTo(g, p, a, b);
    var q :| PathFromTo(g, q, b, c);
    var r := p + q[1..];
    forall i | 0 <= i < |r| - 1 ensures r[i] in g && r[i + 1] in g[r[i]].deps {
      if i < |p| - 1 {
        assert r[i] == p[i] && r[i + 1] == p[i + 1];
      } else {
        var j := i - (|p| - 1);
        assert r[i] == q[j] && r[i + 1] == q[j + 1];
      }
    }
    assert PathFromTo(g, r, a, c);
  }

  /** What depends on a node that has not let it go on is untouched and lets nothing go on itself. */
  lemma NotBeforeItsDependency(g: Dag, limit: int, o: Oracle, t: State, n: NodeId, d: NodeId)
    requires Inv(g, limit, o, t) && DependsOn(g, d, n) && !Satisfied(g, t.status, n)
    ensures d in g && !Satisfied(g, t.status, d) && t.attempts[d] == 0 && Quiet(t, d) && !DepsSatisfied(g, t.status, d)
  {
    var p :| PathFromTo(g, p, d, n);
    assert p[0] in g && p[0 + 1] in g[p[0]].deps;
    if DepsSatisfied(g, t.status, d) { StartedAbove(g, limit, o, t, p); }
    assert NodeInv(g, o, t, d);
  }

  /** A candidate that may run is not a candidate of an outer loop as well, unless there is a shortcut. */
  lemma NotFurtherOut(e: Env, rank: map<NodeId, nat>, entries: seq<NodeId>, throwers: set<NodeId>, c: Config, j: nat)
    requires Sound(e, rank, entries) && NoShortcut(e.g, e.ids, throwers) && StackInv(e, throwers, c)
    requires 0 < j < |c.stack| && c.stack[0].rest != [] && CanExecute(e.g, c.s.status, c.stack[0].rest[0])
    ensures c.stack[0].rest[0] !in c.stack[j].rest
  {
    var x := c.stack[0].rest[0];
    if x in c.stack[j].rest {
      assert FrameOk(e, c.s, c.stack[0]) && FrameOk(e, c.s, c.stack[j]) && Inside(e.g, c.stack[0], c.stack[j]);
      var z := c.stack[0].owner.value;
      RestIsDependent(e, z, c.stack[0].rest, x);
      match c.stack[j].owner
      case None =>
      case Some(n) =>
        assert InstantAbove(e, throwers, c.s.status, n);
        AlsoFurtherOut(e, throwers, c.s, n, c.stack[j], z, x);
    }
  }

  lemma AlsoFurtherOut(e: Env, throwers: set<NodeId>, s: State, n: NodeId, outer: Frame, z: NodeId, x: NodeId)
    requires ListsOnce(e.ids, e.g.Keys) && Known(e, s) && Inv(e.g, e.limit, Outcomes(e), Abs(e.g, s))
    requires outer.owner == Some(n) && FrameOk(e, s, outer) && x in outer.rest
    requires x in e.g && z in e.g[x].deps && DependsOn(e.g, z, n)
    requires DepsSatisfied(e.g, s.status, x) && InstantAbove(e, throwers, s.status, n)
    ensures Shortcut(e.g, e.ids, throwers, n, x)
  {
    var i :| 0 <= i <= |Listed(e.g, e.ids, n)| && outer.rest == Listed(e.g, e.ids, n)[i..];
    RestIsDependent(e, n, outer.rest, x);
    LoopedTwiceIsShortcut(e, throwers, s, n, i, z, x);
  }

  lemma RestIsDependent(e: Env, n: NodeId, rest: seq<NodeId>, x: NodeId)
    requires ListsOnce(e.ids, e.g.Keys) && IsRestOf(e, n, rest) && x in rest
    ensures x in e.g && n in e.g[x].deps
  {
    ListedMembers(e.g, e.ids, n, x);
  }

  /** Whatever lies between is through, and threw at once. */
  lemma BetweenIsInstant(e: Env, throwers: set<NodeId>, s: State, n: NodeId, d: NodeId, x: NodeId)
    requires Inv(e.g, e.limit, Outcomes(e), Abs(e.g, s)) && x in e.g && Between(e.g, n, d, x)
    requires DepsSatisfied(e.g, s.status, x) && InstantAbove(e, throwers, s.status, n)
    ensures Satisfied(e.g, s.status, d) && d in throwers && d in e.g && e.g[d].continueOnError
  {
    var p :| PathFromTo(e.g, p, x, d);
    StartedAbove(e.g, e.limit, Outcomes(e), Abs(e.g, s), p);
  }

  lemma SatisfiedIsTouched(e: Env, s: State, d: NodeId)
    requires Known(e, s) && Inv(e.g, e.limit, Outcomes(e), Abs(e.g, s)) && Satisfied(e.g, s.status, d)
    ensures !Untouched(e, s, d)
  {
    assert NodeInv(e.g, Outcomes(e), Abs(e.g, s), d);
  }

  /** A first node between `n` and `x` is through, so the loop of `n` has passed it. */
  lemma FirstPrecedes(e: Env, s: State, n: NodeId, i: nat, d: NodeId, x: NodeId)
    requires ListsOnce(e.ids, e.g.Keys) && d in e.g && !Untouched(e, s, d)
    requires i <= |Listed(e.g, e.ids, n)| && x in Listed(e.g, e.ids, n)[i..]
    requires forall y | y in Listed(e.g, e.ids, n)[i..] :: Untouched(e, s, y)
    requires n in e.g[d].deps
    ensures Precedes(e.ids, d, x)
  {
    ListedMembers(e.g, e.ids, n, d);
    var all := Listed(e.g, e.ids, n);
    assert all == all[..i] + all[i..];
    ListedOrder(e.g, e.ids, n, i, d, x);
  }

  /** The heart of it: a node that may run while it is still a candidate of the loop of `n`, and whose last
      dependency to end depends on `n`, is reached by a shortcut. */
  lemma LoopedTwiceIsShortcut(e: Env, throwers: set<NodeId>, s: State, n: NodeId, i: nat, z: NodeId, x: NodeId)
    requires ListsOnce(e.ids, e.g.Keys) && Known(e, s) && Inv(e.g, e.limit, Outcomes(e), Abs(e.g, s))
    requires i <= |Listed(e.g, e.ids, n)| && x in Listed(e.g, e.ids, n)[i..]
    requires forall d | d in Listed(e.g, e.ids, n)[i..] :: Untouched(e, s, d)
    requires x in e.g && n in e.g[x].deps && z in e.g[x].deps && DependsOn(e.g, z, n)
    requires DepsSatisfied(e.g, s.status, x) && InstantAbove(e, throwers, s.status, n)
    ensures Shortcut(e.g, e.ids, throwers, n, x)
  {
    PathStep(e.g, x, z);
    assert Between(e.g, n, z, x);
    forall d | Between(e.g, n, d, x) ensures d in throwers && d in e.g && e.g[d].continueOnError {
      BetweenIsInstant(e, throwers, s, n, d, x);
    }
    forall d | Between(e.g, n, d, x) && (forall y | y in e.g[d].deps :: !Between(e.g, n, y, x))
      ensures Precedes(e.ids, d, x)
    {
      BetweenIsInstant(e, throwers, s, n, d, x);
      SatisfiedIsTouched(e, s, d);
      FirstBetween(e.g, n, d, x);
      FirstPrecedes(e, s, n, i, d, x);
    }
  }

  /** The first nodes between `n` and `y` depend on `n` directly. */
  lemma FirstBetween(g: Dag, n: NodeId, d: NodeId, y: NodeId)
    requires Between(g, n, d, y) && d in g && forall x | x in g[d].deps :: !Between(g, n, x, y)
    ensures n in g[d].deps
  {
    var p :| PathFromTo(g, p, d, n);
    assert p[0 + 1] in g[p[0]].deps;
    if |p| > 2 {
      TailIsPath(g, p);
      assert PathFromTo(g, p[1..], p[1], n);
      PathStep(g, d, p[1]);
      Transitive(g, y, d, p[1]);
    }
  }

  // ---- every event keeps the stack in order ----

  /** From `s` to `s'` only `x` is scheduled, run or blocked for, and only `x` may come to let dependents go on. */
  ghost predicate OnlyTouches(e: Env, s: State, s': State, x: NodeId) {
    && Known(e, s) && Known(e, s')
    && (forall n | n in e.g && n != x :: s'.attempts[n] == s.attempts[n] && (Quiet(s', n) <==> Quiet(s, n)))
    && (forall n | n in e.g && n != x ::
      s'.status[n] == s.status[n] || (s.status[n] == Pending && s'.status[n] == Blocked))
    && (Satisfied(e.g, s.status, x) ==> Satisfied(e.g, s'.status, x))
  }

  lemma SatisfiedSame(e: Env, s: State, s': State, x: NodeId, d: NodeId)
    requires OnlyTouches(e, s, s', x)
    ensures Satisfied(e.g, s.status, d) ==> Satisfied(e.g, s'.status, d)
    ensures d != x && Satisfied(e.g, s'.status, d) ==> Satisfied(e.g, s.status, d)
  {}

  lemma FrameKept(e: Env, s: State, s': State, x: NodeId, f: Frame)
    requires OnlyTouches(e, s, s', x) && FrameOk(e, s, f) && x !in f.rest
    ensures FrameOk(e, s', f)
  {
    if f.owner.Some? { SatisfiedSame(e, s, s', x, f.owner.value); }
  }

  lemma InstantKept(e: Env, throwers: set<NodeId>, s: State, s': State, x: NodeId, n: NodeId)
    requires OnlyTouches(e, s, s', x) && InstantAbove(e, throwers, s.status, n)
    requires Satisfied(e.g, s'.status, x) ==> x in throwers && x in e.g && e.g[x].continueOnError
    ensures InstantAbove(e, throwers, s'.status, n)
  {
    forall d | DependsOn(e.g, d, n) && Satisfied(e.g, s'.status, d)
      ensures d in throwers && d in e.g && e.g[d].continueOnError
    {
      SatisfiedSame(e, s, s', x, d);
    }
  }

  /** What becomes ready does so because of `x`. */
  lemma ReadyBecauseOf(e: Env, s: State, s': State, x: NodeId, y: NodeId)
    requires OnlyTouches(e, s, s', x) && y in Ready(e.g, s') && y != x
    ensures y in Ready(e.g, s) || (x in e.g[y].deps && !Satisfied(e.g, s.status, x) && Satisfied(e.g, s'.status, x))
  {
    if !(x in e.g[y].deps && !Satisfied(e.g, s.status, x)) {
      forall d | d in e.g[y].deps ensures Satisfied(e.g, s.status, d) {
        SatisfiedSame(e, s, s', x, d);
      }
    }
  }

  /** The loop over the dependents of a node that has just come to let them go on. */
  lemma NewLoopOk(e: Env, rank: map<NodeId, nat>, entries: seq<NodeId>, throwers: set<NodeId>, s: State, s': State,
                  x: NodeId)
    requires Sound(e, rank, entries) && OnlyTouches(e, s, s', x) && Inv(e.g, e.limit, Outcomes(e), Abs(e.g, s))
    requires !Satisfied(e.g, s.status, x) && Satisfied(e.g, s'.status, x)
    ensures FrameOk(e, s', LoopOf(e, x)) && InstantAbove(e, throwers, s'.status, x)
  {
    var t := Abs(e.g, s);
    var all := Listed(e.g, e.ids, x);
    assert all[0..] == all;
    forall y ensures multiset(all)[y] <= 1 { ListedMembers(e.g, e.ids, x, y); }
    OnceIsDistinct(all);
    forall d | DependsOn(e.g, d, x) ensures d in e.g && d != x && !Satisfied(e.g, s.status, d) && Untouched(e, s, d) {
      NotBeforeItsDependency(e.g, e.limit, Outcomes(e), t, x, d);
      var p :| PathFromTo(e.g, p, d, x);
      RankFallsAlongPath(e.g, rank, p);
    }
    forall y | y in all ensures Untouched(e, s', y) {
      ListedMembers(e.g, e.ids, x, y);
      PathStep(e.g, y, x);
    }
    forall d | DependsOn(e.g, d, x) ensures !Satisfied(e.g, s'.status, d) {
      SatisfiedSame(e, s, s', x, d);
    }
  }

  lemma CaughtTouches(e: Env, s: State, s1: State, stack: seq<Frame>, x: NodeId)
    requires OnlyTouches(e, s, s1, x) && x in e.g && s1.status[x] == Running && !Satisfied(e.g, s.status, x)
    ensures var c' := Caught(e, s1, stack, x);
      && OnlyTouches(e, s, c'.s, x)
      && c'.stack == (if Satisfied(e.g, c'.s.status, x) then [LoopOf(e, x)] + stack else stack)
      && (Satisfied(e.g, c'.s.status, x) ==> e.g[x].continueOnError)
  {
    BlockingTouches(e, s, s1, x);
    assert OnlyTouches(e, s, Leave(s1, x, Failed), x);
  }

  lemma BlockingTouches(e: Env, s: State, s1: State, x: NodeId)
    requires OnlyTouches(e, s, s1, x) && x in e.g && s1.status[x] == Running && !Satisfied(e.g, s.status, x)
    ensures OnlyTouches(e, s, FinishBlocking(e.g, s1, x), x)
    ensures !e.g[x].continueOnError ==> !Satisfied(e.g, FinishBlocking(e.g, s1, x).status, x)
  {
    var mid := s1.status[x := Failed];
    if Blockable(e.g, mid, x, x) { var _ := BlockableInv(e.g, mid, x, x); }
  }

  lemma CalledTouches(e: Env, s: State, s1: State, stack: seq<Frame>, x: NodeId)
    requires OnlyTouches(e, s, s1, x) && x in e.g && s1.status[x] == Running && !Satisfied(e.g, s.status, x)
    ensures var c' := Called(e, s1, stack, x);
      && OnlyTouches(e, s, c'.s, x)
      && c'.stack == (if Satisfied(e.g, c'.s.status, x) then [LoopOf(e, x)] + stack else stack)
  {
    if e.throws(x, s1.attempts[x]) { CaughtTouches(e, s, s1, stack, x); }
  }

  /** A node that fails for good on its first attempt, by throwing at once, is one of those that can. */
  lemma FirstThrow(e: Env, throwers: set<NodeId>, s: State, stack: seq<Frame>, x: NodeId)
    requires x in e.g && Known(e, s) && s.status[x] == Running && s.attempts[x] == 1 && e.g[x].maxAttempts >= 1
    requires OnlyThrow(e, throwers, s.running) && Satisfied(e.g, Called(e, s, stack, x).s.status, x)
    ensures x in throwers && e.g[x].continueOnError
  {
    BlockingTouches(e, s, s, x);
  }

  lemma BeginTouches(e: Env, s: State, x: NodeId)
    requires Known(e, s) && x in e.g && s.status[x] == Pending
    ensures OnlyTouches(e, s, Begin(s, x), x) && Begin(s, x).status[x] == Running
  {}

  lemma WaitTouches(e: Env, s: State, x: NodeId)
    requires Known(e, s) && x in e.g
    ensures OnlyTouches(e, s, s.(waiting := s.waiting + multiset{x}), x)
  {}

  lemma PoppedRest(stack: seq<Frame>, x: NodeId)
    requires stack != [] && stack[0].rest != []
    ensures InLoop(stack, x) ==> x == stack[0].rest[0] || InLoop(Popped(stack), x)
    ensures x !in stack[0].rest[1..] && (forall j | 0 < j < |stack| :: x !in stack[j].rest)
      ==> !InLoop(Popped(stack), x)
  {
    var p := Popped(stack);
    assert forall j | 0 < j < |stack| :: p[j] == stack[j];
    if i :| 0 <= i < |stack| && x in stack[i].rest {
      if i == 0 && x != stack[0].rest[0] { assert x in p[0].rest; }
      if i > 0 { assert x in p[i].rest; }
    }
  }

  /** Taking the next candidate leaves frames in order. */
  lemma PoppedOk(e: Env, s: State, f: Frame)
    requires FrameOk(e, s, f) && f.rest != []
    ensures FrameOk(e, s, Frame(f.owner, f.rest[1..])) && f.rest[0] !in f.rest[1..]
  {
    if f.owner.Some? {
      var all := Listed(e.g, e.ids, f.owner.value);
      var k :| 0 <= k <= |all| && f.rest == all[k..];
      assert f.rest[1..] == all[k + 1..];
    }
  }

  lemma PoppedStack(e: Env, throwers: set<NodeId>, s: State, stack: seq<Frame>)
    requires FramesOk(e, s, stack) && Nested(e.g, stack) && AllInstant(e, throwers, s.status, stack)
    requires stack != [] && stack[0].rest != []
    ensures FramesOk(e, s, Popped(stack)) && Nested(e.g, Popped(stack))
      && AllInstant(e, throwers, s.status, Popped(stack))
  {
    var p := Popped(stack);
    assert |p| == |stack| && p[0].owner == stack[0].owner && forall j | 0 < j < |stack| :: p[j] == stack[j];
    PoppedOk(e, s, stack[0]);
    forall i | 0 <= i < |p| ensures FrameOk(e, s, p[i]) { assert FrameOk(e, s, stack[i]); }
    forall i | 0 <= i < |p| && p[i].owner.Some? ensures InstantAbove(e, throwers, s.status, p[i].owner.value) {
      assert stack[i].owner == p[i].owner;
    }
    forall i, j | 0 <= i < j < |p| ensures Inside(e.g, p[i], p[j]) {
      assert Inside(e.g, stack[i], stack[j]);
    }
  }

  lemma TailStack(e: Env, throwers: set<NodeId>, s: State, stack: seq<Frame>)
    requires FramesOk(e, s, stack) && Nested(e.g, stack) && AllInstant(e, throwers, s.status, stack) && stack != []
    ensures FramesOk(e, s, stack[1..]) && Nested(e.g, stack[1..]) && AllInstant(e, throwers, s.status, stack[1..])
  {
    var p := stack[1..];
    forall i | 0 <= i < |p| ensures FrameOk(e, s, p[i]) { assert p[i] == stack[i + 1]; }
    forall i | 0 <= i < |p| && p[i].owner.Some? ensures InstantAbove(e, throwers, s.status, p[i].owner.value) {
      assert p[i] == stack[i + 1];
    }
    forall i, j | 0 <= i < j < |p| ensures Inside(e.g, p[i], p[j]) {
      assert Inside(e.g, stack[i + 1], stack[j + 1]);
    }
  }

  /** The loops that stay are as they were. */
  lemma OldLoopsKept(e: Env, throwers: set<NodeId>, s: State, s': State, x: NodeId, stack: seq<Frame>)
    requires OnlyTouches(e, s, s', x) && FramesOk(e, s, stack) && AllInstant(e, throwers, s.status, stack)
    requires !InLoop(stack, x)
    requires stack != [] && Satisfied(e.g, s'.status, x) ==> x in throwers && x in e.g && e.g[x].continueOnError
    ensures FramesOk(e, s', stack) && AllInstant(e, throwers, s'.status, stack)
  {
    forall i | 0 <= i < |stack| ensures FrameOk(e, s', stack[i]) { FrameKept(e, s, s', x, stack[i]); }
    forall i | 0 <= i < |stack| && stack[i].owner.Some?
      ensures InstantAbove(e, throwers, s'.status, stack[i].owner.value)
    {
      InstantKept(e, throwers, s, s', x, stack[i].owner.value);
    }
  }

  lemma PushedNested(g: Dag, f: Frame, stack: seq<Frame>)
    requires Nested(g, stack) && f.owner.Some?
    requires stack != [] && stack[0].owner.Some? ==> DependsOn(g, f.owner.value, stack[0].owner.value)
    ensures Nested(g, [f] + stack)
  {
    var p := [f] + stack;
    forall i, j | 0 <= i < j < |p| ensures Inside(g, p[i], p[j]) {
      assert p[j] == stack[j - 1];
      if i > 0 {
        assert Inside(g, stack[i - 1], stack[j - 1]);
      } else if j > 1 && p[j].owner.Some? {
        assert Inside(g, stack[0], stack[j - 1]);
        Transitive(g, f.owner.value, stack[0].owner.value, p[j].owner.value);
      }
    }
  }

  lemma PushedOk(e: Env, throwers: set<NodeId>, s: State, f: Frame, stack: seq<Frame>)
    requires FramesOk(e, s, stack) && AllInstant(e, throwers, s.status, stack)
    requires FrameOk(e, s, f) && (f.owner.Some? ==> InstantAbove(e, throwers, s.status, f.owner.value))
    ensures FramesOk(e, s, [f] + stack) && AllInstant(e, throwers, s.status, [f] + stack)
  {
    var p := [f] + stack;
    assert forall i | 0 < i < |p| :: p[i] == stack[i - 1];
  }

  /** After one node was touched, with its loop pushed if it came to let its dependents go on. */
  lemma TouchKeeps(e: Env, rank: map<NodeId, nat>, entries: seq<NodeId>, throwers: set<NodeId>,
                   s: State, s': State, x: NodeId, stack: seq<Frame>, c': Config)
    requires Sound(e, rank, entries) && OnlyTouches(e, s, s', x) && c'.s == s'
    requires Inv(e.g, e.limit, Outcomes(e), Abs(e.g, s)) && Inv(e.g, e.limit, Outcomes(e), Abs(e.g, s'))
    requires FramesOk(e, s, stack) && Nested(e.g, stack) && AllInstant(e, throwers, s.status, stack)
    requires !Satisfied(e.g, s.status, x) && !InLoop(stack, x) && x !in Ready(e.g, s')
    requires c'.stack == if Satisfied(e.g, s'.status, x) then [LoopOf(e, x)] + stack else stack
    requires stack != [] && Satisfied(e.g, s'.status, x) ==> x in throwers && x in e.g && e.g[x].continueOnError
    requires stack != [] && stack[0].owner.Some? ==> DependsOn(e.g, x, stack[0].owner.value)
    requires forall y | y in Ready(e.g, s) :: y == x || InLoop(stack, y)
    ensures StackInv(e, throwers, c')
  {
    OldLoopsKept(e, throwers, s, s', x, stack);
    if Satisfied(e.g, s'.status, x) {
      NewLoopOk(e, rank, entries, throwers, s, s', x);
      PushedNested(e.g, LoopOf(e, x), stack);
      PushedOk(e, throwers, s', LoopOf(e, x), stack);
    }
    forall y | y in Ready(e.g, s') ensures InLoop(c'.stack, y) {
      ReadyIsLooped(e, s, s', x, stack, c'.stack, y);
    }
  }

  lemma ReadyIsLooped(e: Env, s: State, s': State, x: NodeId, stack: seq<Frame>, stack': seq<Frame>, y: NodeId)
    requires ListsOnce(e.ids, e.g.Keys) && OnlyTouches(e, s, s', x) && y in Ready(e.g, s') && y != x
    requires stack' == if Satisfied(e.g, s'.status, x) then [LoopOf(e, x)] + stack else stack
    requires y in Ready(e.g, s) ==> InLoop(stack, y)
    ensures InLoop(stack', y)
  {
    ReadyBecauseOf(e, s, s', x, y);
    if y in Ready(e.g, s) {
      var i :| 0 <= i < |stack| && y in stack[i].rest;
      assert y in stack'[if Satisfied(e.g, s'.status, x) then i + 1 else i].rest;
    } else {
      ListedMembers(e.g, e.ids, x, y);
      assert y in stack'[0].rest;
    }
  }

  /** A turn of a loop that schedules nothing. */
  lemma SkipKeeps(e: Env, throwers: set<NodeId>, c: Config)
    requires StackInv(e, throwers, c) && c.stack != []
    requires c.stack[0].rest == [] || !CanExecute(e.g, c.s.status, c.stack[0].rest[0])
    ensures StackInv(e, throwers, Visited(e, c)) && Visited(e, c).s == c.s && Size(Visited(e, c).stack) < Size(c.stack)
  {
    var c' := Visited(e, c);
    SizeFalls(c.stack);
    if c.stack[0].rest == [] {
      TailStack(e, throwers, c.s, c.stack);
    } else {
      PoppedStack(e, throwers, c.s, c.stack);
    }
    forall x | x in Ready(e.g, c.s) ensures InLoop(c'.stack, x) {
      if c.stack[0].rest == [] {
        var i :| 0 <= i < |c.stack| && x in c.stack[i].rest;
        assert x in c'.stack[i - 1].rest;
      } else {
        PoppedRest(c.stack, x);
      }
    }
  }

  /** The candidate a loop schedules is a candidate of no other loop. */
  lemma TakenOnce(e: Env, rank: map<NodeId, nat>, entries: seq<NodeId>, throwers: set<NodeId>, c: Config)
    requires Sound(e, rank, entries) && NoShortcut(e.g, e.ids, throwers) && StackInv(e, throwers, c)
    requires c.stack != [] && c.stack[0].rest != [] && CanExecute(e.g, c.s.status, c.stack[0].rest[0])
    ensures !InLoop(Popped(c.stack), c.stack[0].rest[0]) && Untouched(e, c.s, c.stack[0].rest[0])
    ensures forall y | y in Ready(e.g, c.s) :: y == c.stack[0].rest[0] || InLoop(Popped(c.stack), y)
    ensures Popped(c.stack)[0].owner.Some? ==> DependsOn(e.g, c.stack[0].rest[0], Popped(c.stack)[0].owner.value)
  {
    var x := c.stack[0].rest[0];
    assert FrameOk(e, c.s, c.stack[0]);
    PoppedOk(e, c.s, c.stack[0]);
    assert Untouched(e, c.s, x);
    forall j | 0 < j < |c.stack| ensures x !in c.stack[j].rest {
      NotFurtherOut(e, rank, entries, throwers, c, j);
    }
    PoppedRest(c.stack, x);
    forall y | y in Ready(e.g, c.s) ensures y == x || InLoop(Popped(c.stack), y) {
      PoppedRest(c.stack, y);
    }
    if c.stack[0].owner.Some? {
      RestIsDependent(e, c.stack[0].owner.value, c.stack[0].rest, x);
      PathStep(e.g, x, c.stack[0].owner.value);
    }
  }

  /** How many turns the loops under way still have. */
  ghost function Size(stack: seq<Frame>): nat {
    if stack == [] then 0 else 1 + |stack[0].rest| + Size(stack[1..])
  }

  lemma SizeFalls(stack: seq<Frame>)
    requires stack != []
    ensures Size(stack[1..]) < Size(stack)
    ensures stack[0].rest != [] ==> Size(Popped(stack)) < Size(stack)
  {
    if stack[0].rest != [] { assert Popped(stack)[1..] == stack[1..]; }
  }

  /** Every turn of a loop keeps the stack in order and is followed without it. */
  lemma VisitKeeps(e: Env, rank: map<NodeId, nat>, entries: seq<NodeId>, throwers: set<NodeId>, c: Config)
    returns (acts: seq<Action>)
    requires Sound(e, rank, entries) && OnlyThrow(e, throwers, c.s.running) && NoShortcut(e.g, e.ids, throwers)
    requires StackInv(e, throwers, c) && c.stack != []
    ensures StackInv(e, throwers, Visited(e, c))
    ensures Follows(e, Abs(e.g, c.s), acts, Abs(e.g, Visited(e, c).s)) && NeverStopped(acts)
    ensures acts == [] ==> Size(Visited(e, c).stack) < Size(c.stack)
  {
    if c.stack[0].rest == [] || !CanExecute(e.g, c.s.status, c.stack[0].rest[0]) {
      SkipKeeps(e, throwers, c);
      acts := [];
    } else {
      TakenOnce(e, rank, entries, throwers, c);
      acts := VisitIs(e, rank, entries, c);
      BriefGoesOn(acts, Acquire(c.stack[0].rest[0]));
      ScheduledKeeps(e, rank, entries, throwers, c);
    }
  }

  lemma ScheduledKeeps(e: Env, rank: map<NodeId, nat>, entries: seq<NodeId>, throwers: set<NodeId>, c: Config)
    requires Sound(e, rank, entries) && OnlyThrow(e, throwers, c.s.running) && NoShortcut(e.g, e.ids, throwers)
    requires StackInv(e, throwers, c) && c.stack != []
    requires c.stack[0].rest != [] && CanExecute(e.g, c.s.status, c.stack[0].rest[0])
    requires Inv(e.g, e.limit, Outcomes(e), Abs(e.g, Visited(e, c).s))
    ensures StackInv(e, throwers, Visited(e, c))
  {
    var x, c' := c.stack[0].rest[0], Visited(e, c);
    TakenOnce(e, rank, entries, throwers, c);
    PoppedStack(e, throwers, c.s, c.stack);
    ScheduledTouches(e, throwers, c, x);
    TouchKeeps(e, rank, entries, throwers, c.s, c'.s, x, Popped(c.stack), c');
  }

  /** Scheduling a candidate touches nothing else. */
  lemma ScheduledTouches(e: Env, throwers: set<NodeId>, c: Config, x: NodeId)
    requires Known(e, c.s) && OnlyThrow(e, throwers, c.s.running) && c.stack != [] && c.stack[0].rest != []
    requires x == c.stack[0].rest[0] && CanExecute(e.g, c.s.status, x) && Untouched(e, c.s, x)
      && e.g[x].maxAttempts >= 1
    ensures var c' := Visited(e, c);
      && OnlyTouches(e, c.s, c'.s, x) && x !in Ready(e.g, c'.s) && !Satisfied(e.g, c.s.status, x)
      && c'.stack == (if Satisfied(e.g, c'.s.status, x) then [LoopOf(e, x)] + Popped(c.stack) else Popped(c.stack))
      && (Satisfied(e.g, c'.s.status, x) ==> x in throwers && e.g[x].continueOnError)
  {
    if c.s.active >= e.limit {
      WaitTouches(e, c.s, x);
    } else {
      var s1, p := Begin(c.s, x), Popped(c.stack);
      BeginTouches(e, c.s, x);
      CalledTouches(e, c.s, s1, p, x);
      CalledIsNotReady(e, s1, p, x);
      if Satisfied(e.g, Called(e, s1, p, x).s.status, x) { FirstThrow(e, throwers, s1, p, x); }
    }
  }

  lemma CalledIsNotReady(e: Env, s: State, stack: seq<Frame>, x: NodeId)
    requires x in e.g && Known(e, s) && s.status[x] == Running
    ensures x !in Ready(e.g, Called(e, s, stack, x).s)
  {
    var mid := s.status[x := Failed];
    if Blockable(e.g, mid, x, x) { var _ := BlockableInv(e.g, mid, x, x); }
  }

  lemma NoLoopNothingReady(e: Env, throwers: set<NodeId>, c: Config)
    requires StackInv(e, throwers, c) && c.stack == []
    ensures Ready(e.g, c.s) == {} && Abs(e.g, c.s) == c.s && Inv(e.g, e.limit, Outcomes(e), c.s)
  {
    assert forall x | x in Ready(e.g, c.s) :: InLoop(c.stack, x);
    NothingReady(e.g, c.s);
  }

  /** Where a suspended call stands. */
  lemma SuspendedStatus(e: Env, s: State, a: Action)
    requires Inv(e.g, e.limit, Outcomes(e), s) && Enabled(e.g, e.limit, Outcomes(e), s, a) && a != Release && a != Stop
    ensures a.n in e.g && !Satisfied(e.g, s.status, a.n)
    ensures s.status[a.n] == if a.Acquire? || a.Reacquire? then Pending else Running
  {
    AsyncKnown(e, s, a);
    assert NodeInv(e.g, Outcomes(e), s, a.n);
  }

  lemma WakeTouches(e: Env, s: State, a: Action)
    requires Known(e, s) && (a.Acquire? || a.Reacquire?) && a.n in e.g && s.status[a.n] == Pending
    ensures OnlyTouches(e, s, Apply(e.g, s, a), a.n) && Apply(e.g, s, a).status[a.n] == Running
  {
    var n := a.n;
    var s1 := if a.Acquire? then s.(waiting := s.waiting - multiset{n})
              else s.(backoff := s.backoff - multiset{n}, finishing := s.finishing + 1);
    assert Apply(e.g, s, a) == Begin(s1, n);
    BeginTouches(e, s1, n);
  }

  lemma ResolveTouches(e: Env, s: State, n: NodeId)
    requires Known(e, s) && n in e.g && s.status[n] == Running
    ensures OnlyTouches(e, s, Leave(s, n, Completed), n) && Satisfied(e.g, Leave(s, n, Completed).status, n)
    ensures n !in Ready(e.g, Leave(s, n, Completed))
  {}

  lemma CaughtIsNotReady(e: Env, s: State, stack: seq<Frame>, x: NodeId)
    requires x in e.g && Known(e, s) && s.status[x] == Running
    ensures x !in Ready(e.g, Caught(e, s, stack, x).s)
  {
    var mid := s.status[x := Failed];
    if Blockable(e.g, mid, x, x) { var _ := BlockableInv(e.g, mid, x, x); }
  }

  /** A suspended call that goes on: which node it touches, and which loop it starts. */
  lemma AsyncTouches(e: Env, c: Config, a: Action)
    requires Known(e, c.s) && Inv(e.g, e.limit, Outcomes(e), c.s) && Possible(e, c, Async(a)) && a != Release
      && a != Stop
    ensures var c' := After(e, c, Async(a));
      && a.n in e.g && !Satisfied(e.g, c.s.status, a.n) && OnlyTouches(e, c.s, c'.s, a.n) && a.n !in Ready(e.g, c'.s)
      && c'.stack == if Satisfied(e.g, c'.s.status, a.n) then [LoopOf(e, a.n)] + [] else []
  {
    SuspendedStatus(e, c.s, a);
    match a
    case Acquire(n) => WokenTouches(e, c.s, a);
    case Reacquire(n) => WokenTouches(e, c.s, a);
    case Reject(n) =>
      CaughtTouches(e, c.s, c.s, [], n);
      CaughtIsNotReady(e, c.s, [], n);
    case Resolve(n) =>
      ResolveTouches(e, c.s, n);
      assert [LoopOf(e, n)] + [] == [LoopOf(e, n)];
  }

  lemma WokenTouches(e: Env, s: State, a: Action)
    requires Known(e, s) && (a.Acquire? || a.Reacquire?) && a.n in e.g && s.status[a.n] == Pending
    ensures var c' := Called(e, Apply(e.g, s, a), [], a.n);
      && OnlyTouches(e, s, c'.s, a.n) && a.n !in Ready(e.g, c'.s)
      && c'.stack == if Satisfied(e.g, c'.s.status, a.n) then [LoopOf(e, a.n)] + [] else []
  {
    var s1 := Apply(e.g, s, a);
    WakeTouches(e, s, a);
    CalledTouches(e, s, s1, [], a.n);
    CalledIsNotReady(e, s1, [], a.n);
  }

  /** Every suspended call that goes on keeps the stack in order and is followed without it. */
  lemma AsyncKeeps(e: Env, rank: map<NodeId, nat>, entries: seq<NodeId>, throwers: set<NodeId>, c: Config, a: Action)
    returns (acts: seq<Action>)
    requires Sound(e, rank, entries)
    requires StackInv(e, throwers, c) && Possible(e, c, Async(a))
    ensures StackInv(e, throwers, After(e, c, Async(a)))
    ensures Follows(e, Abs(e.g, c.s), acts, Abs(e.g, After(e, c, Async(a)).s))
    ensures acts != [] && Brief(acts, a)
  {
    NoLoopNothingReady(e, throwers, c);
    acts := AsyncIs(e, rank, entries, c, a);
    var c' := After(e, c, Async(a));
    if a == Release || a == Stop {
      assert Ready(e.g, c'.s) == Ready(e.g, c.s);
    } else {
      AsyncTouches(e, c, a);
      TouchKeeps(e, rank, entries, throwers, c.s, c'.s, a.n, [], c');
    }
  }

  lemma StartKeeps(e: Env, rank: map<NodeId, nat>, entries: seq<NodeId>, throwers: set<NodeId>)
    requires Sound(e, rank, entries)
    ensures StackInv(e, throwers, Start(e, entries)) && Abs(e.g, Start(e, entries).s) == Init(e.g, entries)
  {
    var c := Start(e, entries);
    SoundIsRunnable(e, rank, entries);
    InitInv(e.g, rank, e.limit, Outcomes(e), entries);
    assert Below(c.s, Init(e.g, entries));
    AbsIs(e, c.s, Init(e.g, entries));
    StartFrame(e, rank, entries);
    forall x | x in Ready(e.g, c.s) ensures InLoop(c.stack, x) {
      ReadyAtStart(e, entries, x);
      assert x in c.stack[0].rest;
    }
  }

  lemma EntriesAreRoots(e: Env, entries: seq<NodeId>)
    requires ListsOnce(entries, Rootset(e.g))
    ensures Distinct(entries) && forall x :: x in entries <==> x in Rootset(e.g)
  {
    OnceIsDistinct(entries);
    forall x ensures x in entries <==> x in Rootset(e.g) {
      assert x in entries <==> multiset(entries)[x] > 0;
    }
  }

  lemma StartFrame(e: Env, rank: map<NodeId, nat>, entries: seq<NodeId>)
    requires Sound(e, rank, entries)
    ensures FrameOk(e, Start(e, entries).s, Frame(None, entries))
  {
    EntriesAreRoots(e, entries);
    var s := Start(e, entries).s;
    assert forall x | x in entries :: Untouched(e, s, x) && e.g[x].deps == {};
  }

  lemma ReadyAtStart(e: Env, entries: seq<NodeId>, x: NodeId)
    requires ListsOnce(entries, Rootset(e.g)) && x in Ready(e.g, Start(e, entries).s)
    ensures x in entries
  {
    EntriesAreRoots(e, entries);
    var status := Start(e, entries).s.status;
    assert forall d :: !Satisfied(e.g, status, d);
  }

  lemma EventKeeps(e: Env, rank: map<NodeId, nat>, entries: seq<NodeId>, throwers: set<NodeId>, c: Config, v: Event,
                   c': Config)
    returns (acts: seq<Action>)
    requires Sound(e, rank, entries) && OnlyThrow(e, throwers, c.s.running) && NoShortcut(e.g, e.ids, throwers)
    requires StackInv(e, throwers, c) && Moves(e, c, v, c')
    ensures StackInv(e, throwers, c') && Follows(e, Abs(e.g, c.s), acts, Abs(e.g, c'.s))
    ensures v != Async(Stop) ==> NeverStopped(acts) && (acts == [] ==> Size(c'.stack) < Size(c.stack))
  {
    match v
    case Visit => acts := VisitKeeps(e, rank, entries, throwers, c);
    case Async(a) =>
      acts := AsyncKeeps(e, rank, entries, throwers, c, a);
      BriefGoesOn(acts, a);
  }
}
