/** The smallest definition with a shortcut: `x` and `y` depend on `n`, `y` also on `x`, and `x` throws at once and
    is marked continueOnError. With two slots, `y` is scheduled twice and its handler runs twice at the same time. */
module SchedulerTwice {
  import opened Common
  import opened Graph
  import opened SchedulerModel
  import opened SchedulerStack
  import opened SchedulerPoised

  ghost function Small(n: NodeId, x: NodeId, y: NodeId): Dag {
    map[n := Spec({}, 1, false), x := Spec({n}, 1, true), y := Spec({n, x}, 1, false)]
  }

  ghost function SmallEnv(n: NodeId, x: NodeId, y: NodeId): Env {
    Env(Small(n, x, y), [n, x, y], 2, (m: NodeId, k: nat) => true, (m: NodeId, k: nat) => m == x)
  }

  /** A state of the small graph, field by field. */
  ghost function At(n: NodeId, x: NodeId, y: NodeId, status: (Status, Status, Status), attempts: (nat, nat, nat),
                    waiting: multiset<NodeId>, inHandler: multiset<NodeId>, finishing: nat, active: int): State
  {
    State(map[n := status.0, x := status.1, y := status.2], map[n := attempts.0, x := attempts.1, y := attempts.2],
          waiting, inHandler, multiset{}, finishing, active, true)
  }

  lemma SmallListed(n: NodeId, x: NodeId, y: NodeId)
    requires n != x && x != y && y != n
    ensures Listed(Small(n, x, y), [n, x, y], n) == [x, y] && Listed(Small(n, x, y), [n, x, y], x) == [y]
  {
    var g := Small(n, x, y);
    assert [n, x, y][1..] == [x, y] && [x, y][1..] == [y] && [y][1..] == [];
    assert Listed(g, [], n) == [] && Listed(g, [], x) == [];
    assert Listed(g, [y], n) == [y] && Listed(g, [y], x) == [y];
    assert Listed(g, [x, y], n) == [x, y] && Listed(g, [x, y], x) == [y];
  }

  lemma SmallStart(n: NodeId, x: NodeId, y: NodeId)
    requires n != x && x != y && y != n
    ensures Start(SmallEnv(n, x, y), [n])
         == Config(At(n, x, y, (Pending, Pending, Pending), (0, 0, 0), multiset{}, multiset{}, 0, 0),
           [Frame(None, [n])])
  {}

  /** The entry loop starts `n`. */
  lemma SmallBegins(n: NodeId, x: NodeId, y: NodeId)
    requires n != x && x != y && y != n
    ensures Reachable(SmallEnv(n, x, y), [n], false,
      Config(At(n, x, y, (Running, Pending, Pending), (1, 0, 0), multiset{}, multiset{n}, 0, 1), []))
  {
    var e := SmallEnv(n, x, y);
    SmallStart(n, x, y);
    ReachStart(e, [n], false);
    var c0 := Start(e, [n]);
    var s1 := At(n, x, y, (Running, Pending, Pending), (1, 0, 0), multiset{}, multiset{n}, 0, 1);
    assert [n][1..] == [];
    assert Begin(c0.s, n) == s1;
    var c1 := Config(s1, [Frame(None, [])]);
    assert Popped(c0.stack) == c1.stack;
    assert Moves(e, c0, Visit, c1);
    ReachMore(e, [n], false, c0, Visit, c1);
    var c2 := Config(s1, []);
    assert Moves(e, c1, Visit, c2);
    ReachMore(e, [n], false, c1, Visit, c2);
  }

  /** `n` ends, and the loop over its dependents begins. */
  lemma SmallLoops(n: NodeId, x: NodeId, y: NodeId)
    requires n != x && x != y && y != n
    ensures Reachable(SmallEnv(n, x, y), [n], false,
      Config(At(n, x, y, (Completed, Pending, Pending), (1, 0, 0), multiset{}, multiset{}, 1, 1),
        [Frame(Some(n), [x, y])]))
  {
    var e := SmallEnv(n, x, y);
    SmallBegins(n, x, y);
    SmallListed(n, x, y);
    var s1 := At(n, x, y, (Running, Pending, Pending), (1, 0, 0), multiset{}, multiset{n}, 0, 1);
    var s3 := At(n, x, y, (Completed, Pending, Pending), (1, 0, 0), multiset{}, multiset{}, 1, 1);
    assert Leave(s1, n, Completed) == s3;
    assert Moves(e, Config(s1, []), Async(Resolve(n)), Config(s3, [Frame(Some(n), [x, y])]));
    ReachMore(e, [n], false, Config(s1, []), Async(Resolve(n)), Config(s3, [Frame(Some(n), [x, y])]));
  }

  /** The loop starts `x`, which throws, so that the loop over its own dependents comes on top. */
  lemma SmallThrows(n: NodeId, x: NodeId, y: NodeId)
    requires n != x && x != y && y != n
    ensures var s3 := At(n, x, y, (Completed, Pending, Pending), (1, 0, 0), multiset{}, multiset{}, 1, 1);
      Visited(SmallEnv(n, x, y), Config(s3, [Frame(Some(n), [x, y])]))
      == Config(At(n, x, y, (Completed, Failed, Pending), (1, 1, 0), multiset{}, multiset{}, 2, 2),
                [Frame(Some(x), [y]), Frame(Some(n), [y])])
  {
    var e := SmallEnv(n, x, y);
    SmallListed(n, x, y);
    var s3 := At(n, x, y, (Completed, Pending, Pending), (1, 0, 0), multiset{}, multiset{}, 1, 1);
    var s4 := At(n, x, y, (Completed, Failed, Pending), (1, 1, 0), multiset{}, multiset{}, 2, 2);
    assert [x, y][1..] == [y];
    assert Satisfied(e.g, s3.status, n) && CanExecute(e.g, s3.status, x);
    assert Leave(Begin(s3, x), x, Failed) == s4;
  }

  /** Both loops then queue `y`. */
  lemma SmallQueuesTwice(n: NodeId, x: NodeId, y: NodeId)
    requires n != x && x != y && y != n
    ensures Reachable(SmallEnv(n, x, y), [n], false,
      Config(At(n, x, y, (Completed, Failed, Pending), (1, 1, 0), multiset{y, y}, multiset{}, 2, 2),
        [Frame(Some(n), [])]))
  {
    var e := SmallEnv(n, x, y);
    SmallLoops(n, x, y);
    SmallThrows(n, x, y);
    var c3 := Config(At(n, x, y, (Completed, Pending, Pending), (1, 0, 0), multiset{}, multiset{}, 1, 1),
      [Frame(Some(n), [x, y])]);
    var c4 := Visited(e, c3);
    assert Moves(e, c3, Visit, c4);
    ReachMore(e, [n], false, c3, Visit, c4);
    SmallWaits(n, x, y, c4);
  }

  lemma SmallWaits(n: NodeId, x: NodeId, y: NodeId, c4: Config)
    requires n != x && x != y && y != n
    requires c4 == Config(At(n, x, y, (Completed, Failed, Pending), (1, 1, 0), multiset{}, multiset{}, 2, 2),
                          [Frame(Some(x), [y]), Frame(Some(n), [y])])
    requires Reachable(SmallEnv(n, x, y), [n], false, c4)
    ensures Reachable(SmallEnv(n, x, y), [n], false,
      Config(At(n, x, y, (Completed, Failed, Pending), (1, 1, 0), multiset{y, y}, multiset{}, 2, 2),
        [Frame(Some(n), [])]))
  {
    var e := SmallEnv(n, x, y);
    var s4 := c4.s;
    var c5 := Config(s4.(waiting := multiset{y}), [Frame(Some(x), []), Frame(Some(n), [y])]);
    SmallQueues(n, x, y, s4, Some(x), [Frame(Some(n), [y])]);
    assert s4.waiting + multiset{y} == multiset{y};
    assert [Frame(Some(x), [y])] + [Frame(Some(n), [y])] == c4.stack
      && [Frame(Some(x), [])] + [Frame(Some(n), [y])] == c5.stack;
    ReachMore(e, [n], false, c4, Visit, c5);
    var c6 := Config(c5.s, [Frame(Some(n), [y])]);
    assert c5.stack[1..] == c6.stack;
    assert Moves(e, c5, Visit, c6);
    ReachMore(e, [n], false, c5, Visit, c6);
    SmallQueues(n, x, y, c6.s, Some(n), []);
    assert multiset{y} + multiset{y} == multiset{y, y};
    assert [Frame(Some(n), [y])] + [] == c6.stack && [Frame(Some(n), [])] + [] == [Frame(Some(n), [])];
    ReachMore(e, [n], false, c6, Visit, Config(c6.s.(waiting := multiset{y, y}), [Frame(Some(n), [])]));
  }

  /** With both slots taken, a loop that comes to `y` queues it. */
  lemma SmallQueues(n: NodeId, x: NodeId, y: NodeId, s: State, owner: Option<NodeId>, below: seq<Frame>)
    requires n != x && x != y && y != n && s.active == 2 && s.attempts.Keys == {n, x, y}
    requires s.status == map[n := Completed, x := Failed, y := Pending]
    ensures Moves(SmallEnv(n, x, y), Config(s, [Frame(owner, [y])] + below), Visit,
                  Config(s.(waiting := s.waiting + multiset{y}), [Frame(owner, [])] + below))
  {
    var e := SmallEnv(n, x, y);
    var c := Config(s, [Frame(owner, [y])] + below);
    assert [y][1..] == [];
    assert Popped(c.stack) == [Frame(owner, [])] + below;
    assert CanExecute(e.g, s.status, y);
  }

  /** `y` is waiting for a slot twice, and goes on to run its handler twice at once, on more attempts than it is
      granted. The run was not stopped. */
  lemma ScheduledTwice(n: NodeId, x: NodeId, y: NodeId) returns (twice: Config, c: Config)
    requires n != x && x != y && y != n
    ensures Reachable(SmallEnv(n, x, y), [n], false, twice) && twice.s.waiting[y] == 2
    ensures Reachable(SmallEnv(n, x, y), [n], false, c)
    ensures c.s.inHandler[y] == 2 && c.s.attempts.Keys == {n, x, y}
      && c.s.attempts[y] > SmallEnv(n, x, y).g[y].maxAttempts
  {
    var e := SmallEnv(n, x, y);
    SmallQueuesTwice(n, x, y);
    var s7 := At(n, x, y, (Completed, Failed, Pending), (1, 1, 0), multiset{y, y}, multiset{}, 2, 2);
    twice := Config(s7, [Frame(Some(n), [])]);
    var c8 := Config(s7, []);
    assert Moves(e, twice, Visit, c8);
    ReachMore(e, [n], false, twice, Visit, c8);
    var c9 := Config(At(n, x, y, (Completed, Failed, Pending), (1, 1, 0), multiset{y, y}, multiset{}, 1, 1), []);
    assert Moves(e, c8, Async(Release), c9);
    ReachMore(e, [n], false, c8, Async(Release), c9);
    var c10 := Config(At(n, x, y, (Completed, Failed, Pending), (1, 1, 0), multiset{y, y}, multiset{}, 0, 0), []);
    assert Moves(e, c9, Async(Release), c10);
    ReachMore(e, [n], false, c9, Async(Release), c10);
    c := SmallRunsTwice(n, x, y, c10);
  }

  lemma SmallRunsTwice(n: NodeId, x: NodeId, y: NodeId, c10: Config) returns (c: Config)
    requires n != x && x != y && y != n
    requires c10 == Config(At(n, x, y, (Completed, Failed, Pending), (1, 1, 0), multiset{y, y}, multiset{}, 0, 0), [])
    requires Reachable(SmallEnv(n, x, y), [n], false, c10)
    ensures Reachable(SmallEnv(n, x, y), [n], false, c)
    ensures c.s.inHandler[y] == 2 && c.s.attempts.Keys == {n, x, y} && c.s.attempts[y] == 2
  {
    var s11 := At(n, x, y, (Completed, Failed, Running), (1, 1, 1), multiset{y}, multiset{y}, 0, 1);
    var s12 := At(n, x, y, (Completed, Failed, Running), (1, 1, 2), multiset{}, multiset{y, y}, 0, 2);
    var e := SmallEnv(n, x, y);
    SmallTakesOne(n, x, y, c10.s, s11);
    ReachMore(e, [n], false, c10, Async(Acquire(y)), Config(s11, []));
    SmallTakesOther(n, x, y, s11, s12);
    c := Config(s12, []);
    ReachMore(e, [n], false, Config(s11, []), Async(Acquire(y)), c);
  }

  lemma SmallTakesOne(n: NodeId, x: NodeId, y: NodeId, s10: State, s11: State)
    requires n != x && x != y && y != n
    requires s10 == At(n, x, y, (Completed, Failed, Pending), (1, 1, 0), multiset{y, y}, multiset{}, 0, 0)
    requires s11 == At(n, x, y, (Completed, Failed, Running), (1, 1, 1), multiset{y}, multiset{y}, 0, 1)
    ensures Moves(SmallEnv(n, x, y), Config(s10, []), Async(Acquire(y)), Config(s11, []))
  {
    assert multiset{y, y} - multiset{y} == multiset{y};
    ThirdUpdated(n, x, y, Completed, Failed, Pending, Running);
    ThirdUpdated<nat>(n, x, y, 1, 1, 0, 1);
    SmallTakesSlot(n, x, y, s10, s11);
  }

  lemma SmallTakesOther(n: NodeId, x: NodeId, y: NodeId, s11: State, s12: State)
    requires n != x && x != y && y != n
    requires s11 == At(n, x, y, (Completed, Failed, Running), (1, 1, 1), multiset{y}, multiset{y}, 0, 1)
    requires s12 == At(n, x, y, (Completed, Failed, Running), (1, 1, 2), multiset{}, multiset{y, y}, 0, 2)
    ensures Moves(SmallEnv(n, x, y), Config(s11, []), Async(Acquire(y)), Config(s12, []))
  {
    assert multiset{y} - multiset{y} == multiset{};
    ThirdUpdated(n, x, y, Completed, Failed, Running, Running);
    ThirdUpdated<nat>(n, x, y, 1, 1, 1, 2);
    SmallTakesSlot(n, x, y, s11, s12);
  }

  lemma ThirdUpdated<T>(n: NodeId, x: NodeId, y: NodeId, a: T, b: T, c: T, d: T)
    requires n != x && x != y && y != n
    ensures map[n := a, x := b, y := c][y := d] == map[n := a, x := b, y := d]
  {}

  lemma SmallTakesSlot(n: NodeId, x: NodeId, y: NodeId, s: State, s': State)
    requires n != x && x != y && y != n
    requires s.status.Keys == s.attempts.Keys == {n, x, y} && y in s.waiting && s.active < 2
    requires s'.status == s.status[y := Running] && s'.attempts == s.attempts[y := s.attempts[y] + 1]
    requires s'.waiting == s.waiting - multiset{y} && s'.inHandler == s.inHandler + multiset{y}
      && s'.active == s.active + 1
    requires s'.backoff == s.backoff && s'.finishing == s.finishing && s'.running == s.running
    ensures Moves(SmallEnv(n, x, y), Config(s, []), Async(Acquire(y)), Config(s', []))
  {}
}
