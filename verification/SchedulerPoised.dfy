/** A run up to the moment when a given node is the only one still to end, as far as that is possible: everything
    that does not depend on it is completed, and nothing that depends on it has begun. */
module SchedulerPoised {
  import opened Graph
  import opened SchedulerModel
  import opened SchedulerSafety
  import opened SchedulerProgress
  import opened SchedulerStack
  import opened SchedulerRefinement
  import opened SchedulerStackRuns

  /** All handlers are asynchronous and succeed. */
  ghost function Plain(g: Dag, ids: seq<NodeId>, limit: int): Env {
    Env(g, ids, limit, (m: NodeId, k: nat) => true, (m: NodeId, k: nat) => false)
  }

  /** The nodes between `n` and `y` throw at once, the others succeed. */
  ghost function Throwing(g: Dag, ids: seq<NodeId>, limit: int, n: NodeId, y: NodeId): Env {
    Env(g, ids, limit, (m: NodeId, k: nat) => true, (d: NodeId, k: nat) => Between(g, n, d, y))
  }

  /** Some run leads here; with `stops`, it may have been stopped on the way. */
  ghost predicate Reachable(e: Env, entries: seq<NodeId>, stops: bool, c: Config) {
    exists events, configs ::
      IsStackRun(e, entries, events, configs) && (stops || GoesOn(events)) && configs[|events|] == c
  }

  lemma ReachStart(e: Env, entries: seq<NodeId>, stops: bool)
    ensures Reachable(e, entries, stops, Start(e, entries))
  {
    assert IsStackRun(e, entries, [], [Start(e, entries)]) && GoesOn([]);
  }

  lemma ReachMore(e: Env, entries: seq<NodeId>, stops: bool, c: Config, v: Event, c': Config)
    requires Reachable(e, entries, stops, c) && Moves(e, c, v, c') && (stops || v != Async(Stop))
    ensures Reachable(e, entries, stops, c')
  {
    var events, configs :| IsStackRun(e, entries, events, configs) && (stops || GoesOn(events))
      && configs[|events|] == c;
    var events', configs' := events + [v], configs + [c'];
    forall i | 0 <= i < |events'| ensures Moves(e, configs'[i], events'[i], configs'[i + 1]) {
      if i < |events| { assert Moves(e, configs[i], events[i], configs[i + 1]); }
    }
    assert IsStackRun(e, entries, events', configs') && configs'[|events'|] == c';
  }

  // ---- before `n` ends, nothing between it and `y` can begin ----

  lemma PlainNeverFails(g: Dag, ids: seq<NodeId>, limit: int, t: State, m: NodeId)
    requires Inv(g, limit, Outcomes(Plain(g, ids, limit)), t) && m in g
    ensures t.status[m] != Failed && t.backoff[m] == 0
    ensures t.status[m] == Running || t.status[m] == Completed ==> t.attempts[m] == 1
  {
    var o := Outcomes(Plain(g, ids, limit));
    assert NodeInv(g, o, t, m);
    assert o(m, 1);
  }

  lemma NotBetween(g: Dag, ids: seq<NodeId>, limit: int, t: State, n: NodeId, m: NodeId, y: NodeId)
    requires Inv(g, limit, Outcomes(Plain(g, ids, limit)), t) && n in g && t.status[n] != Completed
    requires m in g && DepsSatisfied(g, t.status, m)
    ensures !DependsOn(g, m, n) && !Between(g, n, m, y)
  {
    PlainNeverFails(g, ids, limit, t, n);
    if DependsOn(g, m, n) { NotBeforeItsDependency(g, limit, Outcomes(Plain(g, ids, limit)), t, n, m); }
  }

  lemma UnderwayIsSatisfied(g: Dag, limit: int, o: Oracle, t: State, m: NodeId)
    requires Inv(g, limit, o, t) && Underway(t, m)
    ensures m in g && DepsSatisfied(g, t.status, m)
  {
    assert !Quiet(t, m);
    assert NodeInv(g, o, t, m);
  }

  /** A node that calls its handler does the same in both, as long as it is not in between. */
  lemma SameCall(g: Dag, ids: seq<NodeId>, limit: int, s: State, stack: seq<Frame>, m: NodeId, n: NodeId, y: NodeId)
    requires m in g && m in s.attempts && !Between(g, n, m, y)
    ensures Called(Throwing(g, ids, limit, n, y), s, stack, m) == Called(Plain(g, ids, limit), s, stack, m)
  {}

  lemma SameVisit(g: Dag, ids: seq<NodeId>, limit: int, c: Config, n: NodeId, y: NodeId)
    requires StackInv(Plain(g, ids, limit), {}, c) && c.stack != [] && n in g && c.s.status[n] != Completed
    ensures Visited(Throwing(g, ids, limit, n, y), c) == Visited(Plain(g, ids, limit), c)
  {
    if c.stack[0].rest != [] && CanExecute(g, c.s.status, c.stack[0].rest[0]) && c.s.active < limit {
      var x := c.stack[0].rest[0];
      NotBetween(g, ids, limit, Abs(g, c.s), n, x, y);
      SameCall(g, ids, limit, Begin(c.s, x), Popped(c.stack), x, n, y);
    }
  }

  lemma SameAsync(g: Dag, ids: seq<NodeId>, limit: int, c: Config, a: Action, n: NodeId, y: NodeId)
    requires StackInv(Plain(g, ids, limit), {}, c) && n in g && c.s.status[n] != Completed
    requires Possible(Plain(g, ids, limit), c, Async(a))
    ensures Possible(Throwing(g, ids, limit, n, y), c, Async(a))
    ensures After(Throwing(g, ids, limit, n, y), c, Async(a)) == After(Plain(g, ids, limit), c, Async(a))
  {
    var e := Plain(g, ids, limit);
    NoLoopNothingReady(e, {}, c);
    if a.Acquire? || a.Reacquire? || a.Resolve? {
      UnderwayIsSatisfied(g, limit, Outcomes(e), c.s, a.n);
      NotBetween(g, ids, limit, c.s, n, a.n, y);
    }
    if a.Acquire? || a.Reacquire? {
      SameCall(g, ids, limit, Apply(g, c.s, a), [], a.n, n, y);
    }
  }

  lemma SameMove(g: Dag, ids: seq<NodeId>, limit: int, c: Config, v: Event, c': Config, n: NodeId, y: NodeId)
    requires StackInv(Plain(g, ids, limit), {}, c) && n in g && c.s.status[n] != Completed
    requires Moves(Plain(g, ids, limit), c, v, c')
    ensures Moves(Throwing(g, ids, limit, n, y), c, v, c')
  {
    match v
    case Visit => SameVisit(g, ids, limit, c, n, y);
    case Async(a) => SameAsync(g, ids, limit, c, a, n, y);
  }

  /** Only its own handler completes a node. */
  lemma StaysOpen(g: Dag, ids: seq<NodeId>, limit: int, c: Config, v: Event, c': Config, n: NodeId)
    requires Moves(Plain(g, ids, limit), c, v, c') && v != Async(Resolve(n)) && n in g && c.s.status[n] != Completed
    ensures n in c'.s.status && c'.s.status[n] != Completed
  {
    match v
    case Visit => VisitStaysOpen(g, ids, limit, c, n);
    case Async(a) => AsyncStaysOpen(g, ids, limit, c, a, n);
  }

  lemma VisitStaysOpen(g: Dag, ids: seq<NodeId>, limit: int, c: Config, n: NodeId)
    requires Known(Plain(g, ids, limit), c.s) && c.stack != [] && n in g && c.s.status[n] != Completed
    ensures var s' := Visited(Plain(g, ids, limit), c).s; n in s'.status && s'.status[n] != Completed
  {
    if c.stack[0].rest != [] && CanExecute(g, c.s.status, c.stack[0].rest[0]) {
      var x := c.stack[0].rest[0];
      PlainCall(g, ids, limit, Begin(c.s, x), Popped(c.stack), x);
    }
  }

  lemma AsyncStaysOpen(g: Dag, ids: seq<NodeId>, limit: int, c: Config, a: Action, n: NodeId)
    requires Known(Plain(g, ids, limit), c.s) && Possible(Plain(g, ids, limit), c, Async(a)) && a != Resolve(n)
    requires n in g && c.s.status[n] != Completed
    ensures var s' := After(Plain(g, ids, limit), c, Async(a)).s; n in s'.status && s'.status[n] != Completed
  {
    if (a.Acquire? || a.Reacquire?) && a.n in g {
      PlainCall(g, ids, limit, Apply(g, c.s, a), [], a.n);
    }
  }

  lemma PlainCall(g: Dag, ids: seq<NodeId>, limit: int, s: State, stack: seq<Frame>, m: NodeId)
    requires m in g && m in s.attempts
    ensures Called(Plain(g, ids, limit), s, stack, m) == Config(s, stack)
  {}

  // ---- running on until only `n` is left ----

  ghost predicate Drained(e: Env, c: Config, n: NodeId) {
    forall v | v != Async(Stop) && v != Async(Resolve(n)) :: !Possible(e, c, v)
  }

  lemma NothingThrows(g: Dag, ids: seq<NodeId>, limit: int)
    ensures OnlyThrow(Plain(g, ids, limit), {}, true) && NoShortcut(g, ids, {})
  {}

  lemma {:induction false} Drain(g: Dag, ids: seq<NodeId>, limit: int, rank: map<NodeId, nat>, entries: seq<NodeId>,
                                stops: bool, n: NodeId, y: NodeId, c: Config) returns (c': Config)
    requires Proper(g, ids, rank, entries) && n in g
    requires Reachable(Throwing(g, ids, limit, n, y), entries, stops, c)
    requires StackInv(Plain(g, ids, limit), {}, c) && c.s.running && c.s.status[n] != Completed
    ensures Reachable(Throwing(g, ids, limit, n, y), entries, stops, c')
    ensures StackInv(Plain(g, ids, limit), {}, c') && c'.s.running && c'.s.status[n] != Completed
    ensures Drained(Plain(g, ids, limit), c', n)
    decreases Measure(g, Abs(g, c.s)), Size(c.stack)
  {
    var e := Plain(g, ids, limit);
    if v :| v != Async(Stop) && v != Async(Resolve(n)) && Possible(e, c, v) {
      var next := After(e, c, v);
      NothingThrows(g, ids, limit);
      EventFalls(e, rank, entries, {}, c, v, next);
      StaysOpen(g, ids, limit, c, v, next, n);
      SameMove(g, ids, limit, c, v, next, n, y);
      ReachMore(Throwing(g, ids, limit, n, y), entries, stops, c, v, next);
      c' := Drain(g, ids, limit, rank, entries, stops, n, y, next);
    } else {
      c' := c;
    }
  }

  /** The state with only `n` under way. */
  ghost function Poised(g: Dag, n: NodeId): State {
    State(map m | m in g :: if m == n then Running else if DependsOn(g, m, n) then Pending else Completed,
          map m | m in g :: if DependsOn(g, m, n) then 0 else 1,
          multiset{}, multiset{n}, multiset{}, 0, 1, true)
  }

  /** With only `n` in its handler, whatever is idle depends on it. */
  lemma {:induction false} IdleWaitsFor(g: Dag, ids: seq<NodeId>, limit: int, rank: map<NodeId, nat>, s: State,
                                        n: NodeId, m: NodeId)
    requires Closed(g) && IsRank(g, rank) && Inv(g, limit, Outcomes(Plain(g, ids, limit)), s)
    requires s.waiting == multiset{} && (forall x | x in s.inHandler :: x == n)
    requires m in g && m != n && !Terminal(s.status[m])
    ensures DependsOn(g, m, n)
    decreases if m in rank then rank[m] else 0
  {
    var o := Outcomes(Plain(g, ids, limit));
    assert NodeInv(g, o, s, m);
    PlainNeverFails(g, ids, limit, s, m);
    var d :| d in g[m].deps && !Satisfied(g, s.status, d);
    assert !Bad(g, s.status, d) && NodeInv(g, o, s, d);
    PathStep(g, m, d);
    if d != n { IdleWaitsFor(g, ids, limit, rank, s, n, d); }
  }

  lemma PlainNeverBlocks(g: Dag, ids: seq<NodeId>, limit: int, rank: map<NodeId, nat>, s: State, m: NodeId)
    requires IsRank(g, rank) && Inv(g, limit, Outcomes(Plain(g, ids, limit)), s) && m in g
    ensures s.status[m] != Blocked
  {
    if s.status[m] == Blocked {
      var cause := BlockedHasCause(g, rank, limit, Outcomes(Plain(g, ids, limit)), s, m);
      PlainNeverFails(g, ids, limit, s, cause);
    }
  }

  lemma EmptyMultiset(m: multiset<NodeId>)
    requires forall x :: m[x] == 0
    ensures m == multiset{}
  {}

  /** When nothing else is possible, the slots are free but for the one of `n`. */
  lemma DrainedSlots(g: Dag, ids: seq<NodeId>, limit: int, rank: map<NodeId, nat>, s: State, n: NodeId)
    requires Closed(g) && IsRank(g, rank) && limit >= 2 && n in g && Inv(g, limit, Outcomes(Plain(g, ids, limit)), s)
    requires s.status[n] != Completed && Drained(Plain(g, ids, limit), Config(s, []), n)
    ensures s.waiting == multiset{} && s.backoff == multiset{} && s.inHandler == multiset{n}
    ensures s.finishing == 0 && s.active == 1 && s.status[n] == Running
  {
    var e := Plain(g, ids, limit);
    var c := Config(s, []);
    assert !Possible(e, c, Async(Release));
    forall m ensures s.backoff[m] == 0 && (m != n ==> s.inHandler[m] == 0) && s.inHandler[m] <= 1 {
      DrainedNode(g, ids, limit, s, n, m);
    }
    EmptyMultiset(s.backoff);
    assert s.inHandler == if s.inHandler[n] == 0 then multiset{} else multiset{n};
    forall m ensures s.waiting[m] == 0 { assert !Possible(e, c, Async(Acquire(m))); }
    EmptyMultiset(s.waiting);
    DrainedIsRunning(g, ids, limit, rank, s, n);
  }

  lemma DrainedNode(g: Dag, ids: seq<NodeId>, limit: int, s: State, n: NodeId, m: NodeId)
    requires Inv(g, limit, Outcomes(Plain(g, ids, limit)), s) && Drained(Plain(g, ids, limit), Config(s, []), n)
    ensures s.backoff[m] == 0 && (m != n ==> s.inHandler[m] == 0) && s.inHandler[m] <= 1
  {
    var e := Plain(g, ids, limit);
    assert !Quiet(s, m) ==> m in g;
    if m in g {
      PlainNeverFails(g, ids, limit, s, m);
      assert NodeInv(g, Outcomes(e), s, m);
      assert m != n ==> !Possible(e, Config(s, []), Async(Resolve(m)));
    }
  }

  lemma DrainedIsRunning(g: Dag, ids: seq<NodeId>, limit: int, rank: map<NodeId, nat>, s: State, n: NodeId)
    requires Closed(g) && IsRank(g, rank) && n in g && Inv(g, limit, Outcomes(Plain(g, ids, limit)), s)
    requires s.status[n] != Completed && s.waiting == multiset{} && s.backoff == multiset{}
    requires forall m | m in s.inHandler :: m == n
    ensures s.status[n] == Running && s.inHandler[n] == 1
  {
    var o := Outcomes(Plain(g, ids, limit));
    PlainNeverFails(g, ids, limit, s, n);
    PlainNeverBlocks(g, ids, limit, rank, s, n);
    assert NodeInv(g, o, s, n);
    if s.status[n] == Pending {
      EmptyMultiset(s.inHandler);
      var b := IdleWaitsForBackoff(g, rank, limit, o, s, n);
    }
  }

  /** Then the state is the poised one. */
  lemma DrainedIsPoised(g: Dag, ids: seq<NodeId>, limit: int, rank: map<NodeId, nat>, s: State, n: NodeId)
    requires Closed(g) && IsRank(g, rank) && limit >= 2 && n in g && s.running
      && s.status.Keys == s.attempts.Keys == g.Keys
    requires s.status[n] != Completed
    requires Inv(g, limit, Outcomes(Plain(g, ids, limit)), s) && Drained(Plain(g, ids, limit), Config(s, []), n)
    ensures s == Poised(g, n)
  {
    DrainedSlots(g, ids, limit, rank, s, n);
    forall m | m in g ensures s.status[m] == Poised(g, n).status[m] && s.attempts[m] == Poised(g, n).attempts[m] {
      PoisedNode(g, ids, limit, rank, s, n, m);
    }
  }

  lemma PoisedNode(g: Dag, ids: seq<NodeId>, limit: int, rank: map<NodeId, nat>, s: State, n: NodeId, m: NodeId)
    requires Closed(g) && IsRank(g, rank) && Inv(g, limit, Outcomes(Plain(g, ids, limit)), s) && n in g && m in g
    requires s.waiting == multiset{} && s.backoff == multiset{} && s.inHandler == multiset{n} && s.status[n] == Running
    ensures s.status[m] == if m == n then Running else if DependsOn(g, m, n) then Pending else Completed
    ensures s.attempts[m] == if DependsOn(g, m, n) then 0 else 1
  {
    var o := Outcomes(Plain(g, ids, limit));
    PlainNeverFails(g, ids, limit, s, m);
    PlainNeverBlocks(g, ids, limit, rank, s, m);
    assert NodeInv(g, o, s, m);
    if DependsOn(g, m, n) {
      NotBeforeItsDependency(g, limit, o, s, n, m);
      var p :| PathFromTo(g, p, m, n);
      RankFallsAlongPath(g, rank, p);
    } else if m != n && !Terminal(s.status[m]) {
      IdleWaitsFor(g, ids, limit, rank, s, n, m);
    }
  }

  /** With two slots or more, every node can be the last one under way. */
  lemma PoisedIsReachable(g: Dag, ids: seq<NodeId>, limit: int, rank: map<NodeId, nat>, entries: seq<NodeId>,
                          stops: bool, n: NodeId, y: NodeId)
    requires Proper(g, ids, rank, entries) && n in g && limit >= 2
    ensures Reachable(Throwing(g, ids, limit, n, y), entries, stops, Config(Poised(g, n), []))
  {
    var e := Plain(g, ids, limit);
    var c := Start(e, entries);
    assert c == Start(Throwing(g, ids, limit, n, y), entries);
    ReachStart(Throwing(g, ids, limit, n, y), entries, stops);
    StartKeeps(e, rank, entries, {});
    var c' := Drain(g, ids, limit, rank, entries, stops, n, y, c);
    EndIsPoised(g, ids, limit, rank, c', n);
  }

  lemma EndIsPoised(g: Dag, ids: seq<NodeId>, limit: int, rank: map<NodeId, nat>, c: Config, n: NodeId)
    requires Closed(g) && IsRank(g, rank) && limit >= 2 && n in g && StackInv(Plain(g, ids, limit), {}, c)
    requires c.s.running && c.s.status[n] != Completed && Drained(Plain(g, ids, limit), c, n)
    ensures c == Config(Poised(g, n), [])
  {
    var e := Plain(g, ids, limit);
    assert !Possible(e, c, Visit);
    NoLoopNothingReady(e, {}, c);
    assert c == Config(c.s, []);
    DrainedIsPoised(g, ids, limit, rank, c.s, n);
  }
}
