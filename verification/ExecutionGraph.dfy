/** The scheduler object. Each method is a synchronous stretch of the program; its contract says which event of the
    state machine it takes, followed by the turns of the scheduling loops up to the next await. `Execute` interleaves
    them in any order. */
module ExecutionGraph {
  import opened Common
  import opened Graph
  import opened SchedulerModel
  import opened SchedulerSafety
  import opened SchedulerConfluence
  import opened SchedulerProgress
  import opened SchedulerStack
  import opened SchedulerRefinement
  import opened SchedulerStackRuns
  import opened BlockDependents
  import opened Validation
  import opened DefinitionOutcome

  /** All that is known between two events. */
  ghost predicate Fit(e: Env, rank: map<NodeId, nat>, entries: seq<NodeId>, throwers: set<NodeId>, c: Config) {
    && Sound(e, rank, entries) && OnlyThrow(e, throwers, c.s.running) && NoShortcut(e.g, e.ids, throwers)
    && StackInv(e, throwers, c)
  }

  lemma TurnKeeps(e: Env, rank: map<NodeId, nat>, entries: seq<NodeId>, throwers: set<NodeId>, c: Config, c': Config)
    requires Fit(e, rank, entries, throwers, c) && c.stack != [] && c' == Visited(e, c)
    ensures Fit(e, rank, entries, throwers, c') && c'.s.running == c.s.running
    ensures Measure(e.g, Abs(e.g, c'.s)) <= Measure(e.g, Abs(e.g, c.s))
  {
    EventFalls(e, rank, entries, throwers, c, Visit, c');
  }

  lemma TurnsKeep(e: Env, rank: map<NodeId, nat>, entries: seq<NodeId>, throwers: set<NodeId>, c: Config, k: nat,
                  c': Config)
    requires Fit(e, rank, entries, throwers, c) && Turns(e, c, k, c')
    ensures Fit(e, rank, entries, throwers, c') && c'.s.running == c.s.running
    ensures Measure(e.g, Abs(e.g, c'.s)) <= Measure(e.g, Abs(e.g, c.s))
  {
    var p: Config -> bool := (x: Config) => Fit(e, rank, entries, throwers, x) && x.s.running == c.s.running
                                         && Measure(e.g, Abs(e.g, x.s)) <= Measure(e.g, Abs(e.g, c.s));
    forall x | p(x) && Known(e, x.s) && x.stack != [] ensures p(Visited(e, x)) {
      TurnKeeps(e, rank, entries, throwers, x, Visited(e, x));
    }
    TurnsPreserve(e, p, c, k, c');
  }

  /** The step a method takes: an event, then the loops it starts. */
  ghost predicate Takes(e: Env, s: State, a: Action, s': State) {
    && Known(e, s) && Enabled(e.g, e.limit, Outcomes(e), s, a)
    && Stretch(e, After(e, Config(s, []), Async(a)), Config(s', []))
  }

  lemma TakesAcquire(e: Env, s: State, n: NodeId, s': State)
    requires Known(e, s) && n in e.g && n in s.waiting && s.active < e.limit
    requires Stretch(e, Called(e, Begin(s.(waiting := s.waiting - multiset{n}), n), [], n), Config(s', []))
    ensures Takes(e, s, Acquire(n), s')
  {}

  /** A call in backoff is through, and its node is about to start again. */
  function Retaken(s: State, n: NodeId): State {
    s.(backoff := s.backoff - multiset{n}, finishing := s.finishing + 1)
  }

  lemma TakesReacquire(e: Env, s: State, s1: State, n: NodeId, s': State)
    requires Known(e, s) && n in e.g && n in s.backoff && s.active < e.limit
    requires s1 == Retaken(s, n)
    requires Stretch(e, Called(e, Begin(s1, n), [], n), Config(s', []))
    ensures Takes(e, s, Reacquire(n), s')
  {}

  lemma TakesResolve(e: Env, s: State, n: NodeId, s': State)
    requires Known(e, s) && Enabled(e.g, e.limit, Outcomes(e), s, Resolve(n))
    requires Stretch(e, Config(Leave(s, n, Completed), [Frame(Some(n), Listed(e.g, e.ids, n))] + []), Config(s', []))
    ensures Takes(e, s, Resolve(n), s')
  {
    assert [LoopOf(e, n)] + [] == [LoopOf(e, n)];
  }

  lemma TakesReject(e: Env, s: State, n: NodeId, s': State)
    requires Known(e, s) && n in e.g && Enabled(e.g, e.limit, Outcomes(e), s, Reject(n))
    requires Stretch(e, Caught(e, s, [], n), Config(s', []))
    ensures Takes(e, s, Reject(n), s')
  {}

  /** Every step keeps the invariant and lowers the measure. */
  lemma TakesKeeps(e: Env, rank: map<NodeId, nat>, entries: seq<NodeId>, throwers: set<NodeId>, s: State, a: Action,
                   s': State)
    requires Sound(e, rank, entries) && OnlyThrow(e, throwers, s.running) && NoShortcut(e.g, e.ids, throwers)
    requires StackInv(e, throwers, Config(s, [])) && Takes(e, s, a, s') && a != Stop
    ensures StackInv(e, throwers, Config(s', [])) && s'.running == s.running && Measure(e.g, s') < Measure(e.g, s)
  {
    var c, c' := Config(s, []), Config(s', []);
    var c1 := After(e, c, Async(a));
    EventFalls(e, rank, entries, throwers, c, Async(a), c1);
    var k: nat :| Turns(e, c1, k, c');
    TurnsKeep(e, rank, entries, throwers, c1, k, c');
    NoLoopNothingReady(e, throwers, c);
    NoLoopNothingReady(e, throwers, c');
  }

  // ---- what the catch block and the call of the handler come to ----

  lemma CaughtBacksOff(e: Env, s: State, stack: seq<Frame>, n: NodeId)
    requires n in e.g && n in s.attempts && s.running && s.attempts[n] < e.g[n].maxAttempts
    ensures Caught(e, s, stack, n) == Config(Retrying(s, n), stack)
  {}

  lemma CaughtGoesOn(e: Env, s: State, stack: seq<Frame>, n: NodeId)
    requires n in e.g && n in s.attempts && !(s.running && s.attempts[n] < e.g[n].maxAttempts) && e.g[n].continueOnError
    ensures Caught(e, s, stack, n) == Config(Leave(s, n, Failed), [Frame(Some(n), Listed(e.g, e.ids, n))] + stack)
  {}

  lemma CaughtBlocks(e: Env, s: State, stack: seq<Frame>, n: NodeId)
    requires n in e.g && n in s.attempts && !(s.running && s.attempts[n] < e.g[n].maxAttempts)
      && !e.g[n].continueOnError
    ensures var left := Leave(s, n, Failed);
      Caught(e, s, stack, n) == Config(left.(status := MarkBlocked(e.g, left.status, n)), stack)
  {}

  lemma LeaveFields(s: State, n: NodeId, final: Status, s': State)
    requires s'.status == s.status[n := final] && s'.attempts == s.attempts
    requires s'.inHandler == s.inHandler - multiset{n} && s'.finishing == s.finishing + 1
    requires s'.waiting == s.waiting && s'.backoff == s.backoff
    requires s'.active == s.active && s'.running == s.running
    ensures s' == Leave(s, n, final)
  {}

  function Retrying(s: State, n: NodeId): State {
    s.(status := s.status[n := Pending], inHandler := s.inHandler - multiset{n}, backoff := s.backoff + multiset{n})
  }

  lemma PendingLeaves(status: map<NodeId, Status>, n: NodeId, to: Status)
    requires n in status
    ensures PendingSet(status[n := to]) <= PendingSet(status) + {n}
    ensures to != Pending ==> PendingSet(status[n := to]) == PendingSet(status) - {n}
    ensures to != Pending && status[n] != Pending ==> PendingSet(status[n := to]) == PendingSet(status)
  {}

  lemma BlockedIsNotPending(g: Dag, status: map<NodeId, Status>, n: NodeId)
    ensures PendingSet(MarkBlocked(g, status, n)) <= PendingSet(status)
  {}

  /** What a run of the program comes to: it returns or throws, or it never does either. */
  datatype Outcome = Returns | Throws | Hangs

  /** The outcome with what the executions show at that moment. */
  datatype Report = Report(outcome: Outcome, status: map<NodeId, Status>, attempts: map<NodeId, nat>)

  class Scheduler {
    const table: map<NodeId, NodeDef>
    const entries: seq<NodeId>
    const limit: int
    const dependencyMap: map<NodeId, seq<NodeId>>
    ghost const g: Dag
    ghost const ids: seq<NodeId>

    var status: map<NodeId, Status>
    var attempts: map<NodeId, nat>
    var waiting: multiset<NodeId>
    var inHandler: multiset<NodeId>
    var backoff: multiset<NodeId>
    var finishing: nat
    var active: int
    var running: bool

    function View(): State
      reads this
    {
      State(status, attempts, waiting, inHandler, backoff, finishing, active, running)
    }

    /** What the handlers do: which attempts succeed and which throw at once instead of returning a promise. */
    ghost function World(o: Oracle, throws: Oracle): Env {
      Env(g, ids, limit, o, throws)
    }

    /** The lookup structures agree with the graph. They never change. */
    ghost predicate Wired() {
      && g.Keys == table.Keys
      && (forall n | n in table :: g[n] == SpecOf(table[n]))
      && ListsOnce(ids, g.Keys) && IsDependencyMap(g, ids, dependencyMap)
    }

    ghost predicate Valid()
      reads this
    {
      status.Keys == attempts.Keys == g.Keys
    }

    constructor (nodes: seq<NodeDef>, entries: seq<NodeId>, limit: int, dependencyMap: map<NodeId, seq<NodeId>>)
      requires ListsOnce(IdList(nodes), DagOf(nodes).Keys)
      requires IsDependencyMap(DagOf(nodes), IdList(nodes), dependencyMap)
      ensures Wired() && Valid() && g == DagOf(nodes) && ids == IdList(nodes)
      ensures this.entries == entries && this.limit == limit
      ensures View() == Init(g, entries).(waiting := multiset{}, running := false)
    {
      this.table, this.entries, this.limit := Table(nodes), entries, limit;
      this.dependencyMap, this.g, this.ids := dependencyMap, DagOf(nodes), IdList(nodes);
      status := map n | n in Table(nodes) :: Pending;
      attempts := map n | n in Table(nodes) :: 0;
      waiting, inHandler, backoff, finishing, active, running := multiset{}, multiset{}, multiset{}, 0, 0, false;
    }

    /** The loop of canExecute over a node's dependencies. */
    method CheckExecutable(nodeId: NodeId) returns (r: bool)
      requires Wired() && Valid()
      ensures r == CanExecute(g, status, nodeId)
    {
      if nodeId !in status || status[nodeId] != Pending { return false; }
      var deps := table[nodeId].deps;
      for k := 0 to |deps|
        invariant forall j | 0 <= j < k :: Satisfied(g, status, deps[j])
      {
        assert deps[k] in g[nodeId].deps;
        if deps[k] !in status { return false; }
        if status[deps[k]] == Completed { continue; }
        if status[deps[k]] == Failed && table[deps[k]].continueOnError { continue; }
        return false;
      }
      return true;
    }

    // ---- a call of executeNode ----

    /** A slot is taken and the attempt begins. */
    method BeginAttempt(nodeId: NodeId)
      requires Valid() && nodeId in g
      modifies `status, `attempts, `inHandler, `active
      ensures Valid() && View() == Begin(old(View()), nodeId)
        && PendingSet(status) == old(PendingSet(status)) - {nodeId}
    {
      PendingLeaves(status, nodeId, Running);
      active := active + 1;
      status := status[nodeId := Running];
      attempts := attempts[nodeId := attempts[nodeId] + 1];
      inHandler := inHandler + multiset{nodeId};
    }

    /** The call of the handler: it suspends, or it throws at once and the catch block runs. */
    method CallHandler(nodeId: NodeId, throws: Oracle, ghost o: Oracle, ghost stack: seq<Frame>)
      requires Wired() && Valid() && nodeId in g && nodeId in inHandler && attempts[nodeId] >= 1
        && status[nodeId] == Running
      modifies this
      ensures Valid() && PendingSet(status) <= old(PendingSet(status)) + {nodeId}
      ensures Stretch(World(o, throws), Called(World(o, throws), old(View()), stack, nodeId), Config(View(), stack))
      decreases PendingSet(status), 3
    {
      if throws(nodeId, attempts[nodeId]) {
        CatchBlock(nodeId, throws, o, stack);
      } else {
        NoTurn(World(o, throws), Config(View(), stack));
      }
    }

    /** Record the end of a call whose handler is through. Its slot is given back later. */
    method LeaveHandler(nodeId: NodeId, final: Status)
      requires Valid() && nodeId in g
      modifies `status, `inHandler, `finishing
      ensures Valid() && status == old(status)[nodeId := final]
      ensures inHandler == old(inHandler) - multiset{nodeId} && finishing == old(finishing) + 1
      ensures View() == Leave(old(View()), nodeId, final)
    {
      ghost var s := View();
      status := status[nodeId := final];
      inHandler := inHandler - multiset{nodeId};
      finishing := finishing + 1;
      ghost var s' := View();
      assert s'.attempts == s.attempts && s'.waiting == s.waiting && s'.backoff == s.backoff;
      assert s'.active == s.active && s'.running == s.running;
      LeaveFields(s, nodeId, final, s');
    }

    /** The catch block: back off, or fail for good and block the dependents or let them go on. */
    method CatchBlock(nodeId: NodeId, throws: Oracle, ghost o: Oracle, ghost stack: seq<Frame>)
      requires Wired() && Valid() && nodeId in g && nodeId in inHandler && attempts[nodeId] >= 1
        && status[nodeId] == Running
      modifies this
      ensures Valid() && PendingSet(status) <= old(PendingSet(status)) + {nodeId}
      ensures Stretch(World(o, throws), Caught(World(o, throws), old(View()), stack, nodeId), Config(View(), stack))
      decreases PendingSet(status), 2
    {
      var node := table[nodeId];
      assert RetryAllowed(node.retryPolicy, attempts[nodeId]) <==> attempts[nodeId] < g[nodeId].maxAttempts;
      ghost var s, e := View(), World(o, throws);
      PendingLeaves(status, nodeId, Failed);
      if RetryAllowed(node.retryPolicy, attempts[nodeId]) && running {
        CaughtBacksOff(e, s, stack, nodeId);
        BackOff(nodeId);
        NoTurn(e, Config(View(), stack));
      } else if node.continueOnError {
        CaughtGoesOn(e, s, stack, nodeId);
        LeaveHandler(nodeId, Failed);
        ScheduleNodes(Dependents(dependencyMap, nodeId), throws, o, Some(nodeId), stack);
      } else {
        CaughtBlocks(e, s, stack, nodeId);
        LeaveHandler(nodeId, Failed);
        BlockedIsNotPending(g, status, nodeId);
        status := MarkBlockedDependents(g, ids, dependencyMap, status, nodeId);
        NoTurn(e, Config(View(), stack));
      }
    }

    /** Back to pending, keeping the slot while waiting for another one. */
    method BackOff(nodeId: NodeId)
      requires Valid() && nodeId in g
      modifies `status, `inHandler, `backoff
      ensures Valid() && View() == Retrying(old(View()), nodeId)
        && PendingSet(status) <= old(PendingSet(status)) + {nodeId}
    {
      PendingLeaves(status, nodeId, Pending);
      status := status[nodeId := Pending];
      inHandler, backoff := inHandler - multiset{nodeId}, backoff + multiset{nodeId};
    }

    // ---- the scheduling loop ----

    /** scheduleNode up to its first await: wait for a slot, or take it and call the handler. */
    method ScheduleNode(nodeId: NodeId, throws: Oracle, ghost o: Oracle, ghost stack: seq<Frame>)
      requires Wired() && Valid() && nodeId in g && status[nodeId] == Pending
      modifies this
      ensures Valid() && PendingSet(status) <= old(PendingSet(status))
      ensures old(active) >= limit ==> View() == old(View()).(waiting := old(waiting) + multiset{nodeId})
      ensures old(active) < limit ==>
        Stretch(World(o, throws), Called(World(o, throws), Begin(old(View()), nodeId), stack, nodeId),
          Config(View(), stack))
      decreases PendingSet(status), 0
    {
      if active >= limit {
        waiting := waiting + multiset{nodeId};
        return;
      }
      BeginAttempt(nodeId);
      CallHandler(nodeId, throws, o, stack);
    }

    /** The loop over candidates. A node that throws at once runs its own loop inside it. */
    method ScheduleNodes(nodeIds: seq<NodeId>, throws: Oracle, ghost o: Oracle, ghost owner: Option<NodeId>,
                         ghost below: seq<Frame>)
      requires Wired() && Valid()
      modifies this
      ensures Valid() && PendingSet(status) <= old(PendingSet(status))
      ensures Stretch(World(o, throws), Config(old(View()), [Frame(owner, nodeIds)] + below), Config(View(), below))
      decreases PendingSet(status), 1
    {
      ghost var e, first := World(o, throws), Config(View(), [Frame(owner, nodeIds)] + below);
      NoTurn(e, first);
      assert nodeIds[0..] == nodeIds;
      for k := 0 to |nodeIds|
        invariant Valid() && PendingSet(status) <= old(PendingSet(status))
        invariant Stretch(e, first, Config(View(), [Frame(owner, nodeIds[k..])] + below))
      {
        ghost var c := Config(View(), [Frame(owner, nodeIds[k..])] + below);
        ghost var rest := [Frame(owner, nodeIds[k + 1..])] + below;
        assert Popped(c.stack) == rest && c.stack[0].rest[0] == nodeIds[k];
        var ok := CheckExecutable(nodeIds[k]);
        if ok { ScheduleNode(nodeIds[k], throws, o, rest); }
        if !ok || c.s.active >= limit { NoTurn(e, Config(View(), rest)); }
        StretchTurn(e, first, c, Config(View(), rest));
      }
      ghost var last := Config(View(), [Frame(owner, nodeIds[|nodeIds|..])] + below);
      assert Visited(e, last) == Config(View(), below);
      NoTurn(e, Config(View(), below));
      StretchTurn(e, first, last, Config(View(), below));
    }

    // ---- suspended calls that go on ----

    /** A waiting call looks again for a slot; without one it goes back to sleep. */
    method WakeWaiting(nodeId: NodeId, throws: Oracle, ghost o: Oracle)
      requires Wired() && Valid() && nodeId in g && nodeId in waiting
      modifies this
      ensures Valid() && (old(active) >= limit ==> View() == old(View()))
      ensures old(active) < limit ==> Takes(World(o, throws), old(View()), Acquire(nodeId), View())
    {
      ghost var s := View();
      if active >= limit { return; }
      waiting := waiting - multiset{nodeId};
      BeginAttempt(nodeId);
      CallHandler(nodeId, throws, o, []);
      TakesAcquire(World(o, throws), s, nodeId, View());
    }

    method LeaveBackoff(nodeId: NodeId)
      modifies `backoff, `finishing
      ensures View() == Retaken(old(View()), nodeId)
    {
      backoff := backoff - multiset{nodeId};
      finishing := finishing + 1;
    }

    /** A call in backoff looks for a slot. Once it has one, the old call is through. */
    method WakeRetry(nodeId: NodeId, throws: Oracle, ghost o: Oracle)
      requires Wired() && Valid() && nodeId in g && nodeId in backoff
      modifies this
      ensures Valid() && (old(active) >= limit ==> View() == old(View()))
      ensures old(active) < limit ==> Takes(World(o, throws), old(View()), Reacquire(nodeId), View())
    {
      ghost var s := View();
      if active >= limit { return; }
      LeaveBackoff(nodeId);
      ghost var s1 := View();
      BeginAttempt(nodeId);
      CallHandler(nodeId, throws, o, []);
      TakesReacquire(World(o, throws), s, s1, nodeId, View());
    }

    /** The handler's promise is fulfilled. */
    method HandlerResolved(nodeId: NodeId, throws: Oracle, ghost o: Oracle)
      requires Wired() && Valid() && nodeId in g
        && Enabled(g, limit, Outcomes(World(o, throws)), View(), Resolve(nodeId))
      requires status[nodeId] == Running
      modifies this
      ensures Valid() && Takes(World(o, throws), old(View()), Resolve(nodeId), View())
    {
      ghost var s := View();
      LeaveHandler(nodeId, Completed);
      ScheduleNodes(Dependents(dependencyMap, nodeId), throws, o, Some(nodeId), []);
      TakesResolve(World(o, throws), s, nodeId, View());
    }

    /** The handler's promise is rejected, or its time is up. */
    method HandlerRejected(nodeId: NodeId, throws: Oracle, ghost o: Oracle)
      requires Wired() && Valid() && nodeId in g
        && Enabled(g, limit, Outcomes(World(o, throws)), View(), Reject(nodeId))
      requires attempts[nodeId] >= 1 && status[nodeId] == Running
      modifies this
      ensures Valid() && Takes(World(o, throws), old(View()), Reject(nodeId), View())
    {
      ghost var s := View();
      CatchBlock(nodeId, throws, o, []);
      TakesReject(World(o, throws), s, nodeId, View());
    }

    /** A call that is through gives its slot back. */
    method GiveBack(ghost o: Oracle, ghost throws: Oracle)
      requires Valid() && finishing > 0
      modifies this
      ensures Valid() && Takes(World(o, throws), old(View()), Release, View())
    {
      active := active - 1;
      finishing := finishing - 1;
      NoTurn(World(o, throws), Config(View(), []));
    }

    /** The check the completion loop polls. */
    method CheckDone() returns (done: bool)
      requires Valid()
      ensures done == AllDone(g, View())
    {
      var todo := status.Keys;
      while todo != {}
        invariant todo <= status.Keys
        invariant forall n | n in g && n !in todo :: Terminal(status[n])
      {
        var n :| n in todo;
        if !Terminal(status[n]) { return false; }
        todo := todo - {n};
      }
      return true;
    }

    /** The failed nodes that make `execute` throw. */
    method FailedNodes() returns (failed: set<NodeId>)
      requires Wired() && Valid()
      ensures forall n :: n in failed <==> HardFailed(g, status, n)
    {
      failed := {};
      var todo := status.Keys;
      while todo != {}
        invariant todo <= status.Keys
        invariant forall n :: n in failed <==> n !in todo && HardFailed(g, status, n)
      {
        var n :| n in todo;
        todo := todo - {n};
        if status[n] == Failed && !table[n].continueOnError { failed := failed + {n}; }
      }
    }

    // ---- a whole run ----

    /** Nothing but polling is possible any more. */
    predicate NothingToDo()
      reads this
    {
      finishing == 0 && inHandler == multiset{} && (active >= limit || (waiting == multiset{} && backoff == multiset{}))
    }

    /** What a run relies on: a validated definition with derived entry nodes, and no shortcut through nodes that
        throw at once. */
    ghost predicate Prepared(o: Oracle, throws: Oracle, rank: map<NodeId, nat>, throwers: set<NodeId>) {
      && Wired() && Proper(g, ids, rank, entries)
      && OnlyThrow(World(o, throws), throwers, true) && NoShortcut(g, ids, throwers)
    }

    /** Any one of the events that are possible now. */
    method AnyEvent(o: Oracle, throws: Oracle) returns (ghost a: Action)
      requires Wired() && Valid() && !NothingToDo() && AllKnown(g, View())
      modifies this
      ensures Valid() && Takes(World(o, throws), old(View()), a, View()) && a != Stop
    {
      if {
        case finishing > 0 =>
          a := Release;
          GiveBack(o, throws);
        case active < limit && waiting != multiset{} =>
          var n :| n in waiting;
          a := Acquire(n);
          WakeWaiting(n, throws, o);
        case active < limit && backoff != multiset{} =>
          var n :| n in backoff;
          a := Reacquire(n);
          WakeRetry(n, throws, o);
        case inHandler != multiset{} =>
          var n :| n in inHandler;
          if o(n, attempts[n]) && !throws(n, attempts[n]) {
            a := Resolve(n);
            HandlerResolved(n, throws, o);
          } else {
            a := Reject(n);
            HandlerRejected(n, throws, o);
          }
      }
    }

    /** One event, which keeps the invariant and lowers the measure. */
    method Advance(o: Oracle, throws: Oracle, ghost rank: map<NodeId, nat>, ghost throwers: set<NodeId>)
      requires Prepared(o, throws, rank, throwers) && running && !NothingToDo()
      requires StackInv(World(o, throws), throwers, Config(View(), []))
      modifies this
      ensures StackInv(World(o, throws), throwers, Config(View(), [])) && running
      ensures Measure(g, View()) < old(Measure(g, View()))
    {
      ghost var s, e := View(), World(o, throws);
      NoLoopNothingReady(e, throwers, Config(s, []));
      SuspendedIsKnown(g, limit, Outcomes(e), s);
      ghost var a := AnyEvent(o, throws);
      TakesKeeps(e, rank, entries, throwers, s, a, View());
    }

    /** Schedule the entry nodes. */
    method ScheduleEntries(o: Oracle, throws: Oracle, ghost rank: map<NodeId, nat>, ghost throwers: set<NodeId>)
      requires Prepared(o, throws, rank, throwers)
      requires View() == Init(g, entries).(waiting := multiset{}, running := false)
      modifies this
      ensures StackInv(World(o, throws), throwers, Config(View(), [])) && running
    {
      ghost var e := World(o, throws);
      running := true;
      assert Config(View(), [Frame(None, entries)] + []) == Start(e, entries);
      ScheduleNodes(entries, throws, o, None, []);
      EntriesScheduled(e, rank, entries, throwers, View());
    }

    /** Events in any order until all nodes are terminal, or nothing can happen any more. */
    method RunToEnd(o: Oracle, throws: Oracle, ghost rank: map<NodeId, nat>, ghost throwers: set<NodeId>)
      returns (done: bool)
      requires Prepared(o, throws, rank, throwers) && running
      requires StackInv(World(o, throws), throwers, Config(View(), []))
      modifies this
      ensures Valid() && (done ==> HasFinalOutcome(g, rank, Outcomes(World(o, throws)), View()))
      ensures !done ==> Stuck(g, limit, Outcomes(World(o, throws)), View())
      ensures SlotsSuffice(g, limit) ==> done
    {
      ghost var e := World(o, throws);
      NoLoopNothingReady(e, throwers, Config(View(), []));
      done := CheckDone();
      while !done && !NothingToDo()
        invariant StackInv(e, throwers, Config(View(), [])) && Inv(g, limit, Outcomes(e), View())
        invariant running && done == AllDone(g, View())
        decreases Measure(g, View()), !done
      {
        Advance(o, throws, rank, throwers);
        NoLoopNothingReady(e, throwers, Config(View(), []));
        done := CheckDone();
      }
      if done {
        DoneIsFinal(g, rank, limit, Outcomes(e), View());
      } else {
        IdleIsStuck(g, limit, Outcomes(e), View());
        if SlotsSuffice(g, limit) { Progress(g, rank, limit, Outcomes(e), View()); }
      }
    }

    /** The whole run, for any handlers and any interleaving. If it ends, every node has its final status and attempt
        count, and it throws exactly when a node fails for good without continueOnError. It hangs only with every
        slot held by a node waiting to retry, and never with enough slots. */
    method Execute(o: Oracle, throws: Oracle, ghost rank: map<NodeId, nat>, ghost throwers: set<NodeId>)
      returns (r: Outcome)
      requires Prepared(o, throws, rank, throwers)
      requires View() == Init(g, entries).(waiting := multiset{}, running := false)
      modifies this
      ensures Valid() && (SlotsSuffice(g, limit) ==> r != Hangs)
      ensures r == Hangs ==> Stuck(g, limit, Outcomes(World(o, throws)), View())
      ensures r != Hangs ==> HasFinalOutcome(g, rank, Outcomes(World(o, throws)), View()) && !running
      ensures r != Hangs ==> (r == Throws <==> exists n :: FailsHard(g, rank, Outcomes(World(o, throws)), n))
    {
      ScheduleEntries(o, throws, rank, throwers);
      var done := RunToEnd(o, throws, rank, throwers);
      if !done { return Hangs; }
      var thrown := Conclude(Outcomes(World(o, throws)), rank);
      r := if thrown then Throws else Returns;
    }

    /** After the last node: look for failures and leave the running state. */
    method Conclude(ghost o: Oracle, ghost rank: map<NodeId, nat>) returns (thrown: bool)
      requires Wired() && Closed(g) && IsRank(g, rank) && Valid() && HasFinalOutcome(g, rank, o, View())
      modifies `running
      ensures HasFinalOutcome(g, rank, o, View()) && !running
      ensures thrown <==> exists n :: FailsHard(g, rank, o, n)
    {
      ghost var s := View();
      ThrowsIffFailsHard(g, rank, o, s);
      var failed := FailedNodes();
      thrown := failed != {};
      running := false;
      OutcomeFields(g, rank, o, s, View());
    }
  }

  lemma OutcomeFields(g: Dag, rank: map<NodeId, nat>, o: Oracle, s: State, s': State)
    requires Closed(g) && IsRank(g, rank) && HasFinalOutcome(g, rank, o, s)
    requires s'.status == s.status && s'.attempts == s.attempts
    ensures HasFinalOutcome(g, rank, o, s')
  {}

  lemma EntriesScheduled(e: Env, rank: map<NodeId, nat>, entries: seq<NodeId>, throwers: set<NodeId>, s: State)
    requires Sound(e, rank, entries) && OnlyThrow(e, throwers, true) && NoShortcut(e.g, e.ids, throwers)
    requires Stretch(e, Start(e, entries), Config(s, []))
    ensures StackInv(e, throwers, Config(s, [])) && s.running
  {
    StartKeeps(e, rank, entries, throwers);
    var k: nat :| Turns(e, Start(e, entries), k, Config(s, []));
    TurnsKeep(e, rank, entries, throwers, Start(e, entries), k, Config(s, []));
  }

  /** The nodes of all suspended calls are known, and those in their handler are running. */
  ghost predicate AllKnown(g: Dag, s: State) {
    && (forall n :: n in s.waiting || n in s.backoff || n in s.inHandler ==> n in g)
    && (forall n | n in s.inHandler :: n in s.attempts && s.attempts[n] >= 1 && n in s.status && s.status[n] == Running)
  }

  lemma SuspendedIsKnown(g: Dag, limit: int, o: Oracle, s: State)
    requires Inv(g, limit, o, s)
    ensures AllKnown(g, s)
  {
    forall n | n in s.inHandler ensures n in s.attempts && s.attempts[n] >= 1 && s.status[n] == Running {
      assert !Quiet(s, n) && NodeInv(g, o, s, n);
    }
    assert forall n :: n in s.waiting || n in s.backoff || n in s.inHandler ==> !Quiet(s, n);
  }

  lemma IdleIsStuck(g: Dag, limit: int, o: Oracle, s: State)
    requires !AllDone(g, s) && s.finishing == 0 && s.inHandler == multiset{}
    requires s.active >= limit || (s.waiting == multiset{} && s.backoff == multiset{})
    ensures Stuck(g, limit, o, s)
  {}

  // ---- from a definition to its outcome ----

  /** A validated definition with derived entry nodes has what a run relies on. */
  lemma DerivedEntriesProper(nodes: seq<NodeDef>, rank: map<NodeId, nat>)
    requires WellFormed(nodes) && IsRank(DagOf(nodes), rank)
    ensures Proper(DagOf(nodes), IdList(nodes), rank, Roots(nodes))
  {
    var g := DagOf(nodes);
    WellFormedIsClosed(nodes);
    UniqueListsOnce(nodes);
    forall n ensures multiset(Roots(nodes))[n] == if n in Rootset(g) then 1 else 0 {
      RootCount(nodes, n);
    }
  }

  lemma RootCount(nodes: seq<NodeDef>, n: NodeId)
    requires UniqueIds(nodes)
    ensures multiset(Roots(nodes))[n] == if n in Rootset(DagOf(nodes)) then 1 else 0
  {
    if n in DagOf(nodes) {
      var k :| 0 <= k < |nodes| && nodes[k].id == n;
      FindUnique(nodes, k);
      DepSetEmpty(nodes[k].deps);
      RootsListedOnce(nodes, k);
    } else {
      assert n !in Roots(nodes);
    }
  }

  lemma UniqueListsOnce(nodes: seq<NodeDef>)
    requires UniqueIds(nodes)
    ensures ListsOnce(IdList(nodes), DagOf(nodes).Keys)
  {
    var ids := IdList(nodes);
    assert forall i, j | 0 <= i < j < |ids| :: ids[i] != ids[j];
    forall n ensures multiset(ids)[n] == if n in DagOf(nodes) then 1 else 0 {
      if n in ids { DistinctCount(ids, n); }
    }
  }

  lemma {:induction false} DistinctCount(ids: seq<NodeId>, n: NodeId)
    requires n in ids && forall i, j | 0 <= i < j < |ids| :: ids[i] != ids[j]
    ensures multiset(ids)[n] == 1
  {
    var rest := ids[1..];
    assert ids == [ids[0]] + rest;
    assert multiset(ids) == multiset{ids[0]} + multiset(rest);
    if n == ids[0] {
      assert n !in rest;
      assert multiset(rest)[n] == 0;
    } else {
      DistinctCount(rest, n);
    }
  }

  /** Validate, build and run a graph. The entry nodes are derived, or the definition names the nodes without
      dependencies itself, in any order. */
  method RunGraph(nodes: seq<NodeDef>, entryNodes: seq<NodeId>, limit: int, o: Oracle, throws: Oracle,
                  ghost throwers: set<NodeId>)
    returns (r: Result<Report, GraphError>, ghost rank: map<NodeId, nat>)
    requires entryNodes == [] || ListsOnce(entryNodes, Rootset(DagOf(nodes)))
    requires OnlyThrow(Env(DagOf(nodes), IdList(nodes), limit, o, throws), throwers, true)
    requires NoShortcut(DagOf(nodes), IdList(nodes), throwers)
    ensures r.Ok? <==> Acceptable(nodes)
    ensures r.Ok? ==> Closed(DagOf(nodes)) && IsRank(DagOf(nodes), rank)
    ensures r.Ok? && SlotsSuffice(DagOf(nodes), limit) ==> r.value.outcome != Hangs
    ensures r.Ok? && r.value.outcome != Hangs ==>
      var outcomes := Outcomes(Env(DagOf(nodes), IdList(nodes), limit, o, throws));
      && (r.value.outcome == Throws <==> exists n :: FailsHard(DagOf(nodes), rank, outcomes, n))
      && (r.value.outcome == Throws <==> FailsByDefinition(nodes, r.value.status))
      && (forall k | 0 <= k < |nodes| :: EndsAs(nodes, nodes[k], outcomes, r.value.status, r.value.attempts))
  {
    var validated;
    validated, rank := ValidateGraph(nodes, entryNodes);
    if validated.Err? { return Err(validated.error), rank; }
    DerivedEntriesProper(nodes, rank);
    var dependencyMap := BuildDependencyMap(nodes);
    var scheduler := new Scheduler(nodes, validated.value, limit, dependencyMap);
    var outcome := scheduler.Execute(o, throws, rank, throwers);
    ghost var outcomes := Outcomes(Env(DagOf(nodes), IdList(nodes), limit, o, throws));
    if outcome != Hangs { ReportIsRight(nodes, rank, outcomes, scheduler.View()); }
    r := Ok(Report(outcome, scheduler.status, scheduler.attempts));
  }

  lemma ReportIsRight(nodes: seq<NodeDef>, rank: map<NodeId, nat>, o: Oracle, s: State)
    requires WellFormed(nodes) && Closed(DagOf(nodes)) && IsRank(DagOf(nodes), rank)
    requires HasFinalOutcome(DagOf(nodes), rank, o, s)
    ensures (exists n :: FailsHard(DagOf(nodes), rank, o, n)) <==> FailsByDefinition(nodes, s.status)
    ensures forall k | 0 <= k < |nodes| :: EndsAs(nodes, nodes[k], o, s.status, s.attempts)
  {
    ThrowsIffFailsHard(DagOf(nodes), rank, o, s);
    ThrowsByDefinition(nodes, s.status);
    forall k | 0 <= k < |nodes| ensures EndsAs(nodes, nodes[k], o, s.status, s.attempts) {
      OutcomeOfDefinition(nodes, rank, o, s, k);
    }
  }
}
