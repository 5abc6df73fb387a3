/** The other half: where there is a shortcut, some run does schedule a node twice. Together with
    SchedulerStackRuns this gives the exact condition on the definition. */
module SchedulerShortcut {
  import opened Common
  import opened Graph
  import opened SchedulerModel
  import opened SchedulerSafety
  import opened SchedulerStack
  import opened SchedulerRefinement
  import opened SchedulerStackRuns
  import opened SchedulerPoised

  // ---- the loop of `n` with slots enough for everything ----

  /** What every configuration looks like while the loop over the dependents of `n` is under way and nothing has
      had to wait for a slot: `n` has ended, the nodes between `n` and `y` fail for good as soon as they start, and
      all else that starts stays in its handler. */
  ghost predicate Looping(g: Dag, ids: seq<NodeId>, n: NodeId, y: NodeId, c: Config) {
    && c.s.status.Keys == c.s.attempts.Keys == g.Keys
    && NodesLooping(g, n, y, c.s)
    && c.stack != [] && c.s.active >= |c.stack| && y in g && y in Bottom(c).rest && c.s.status[y] == Pending
    && FramesLooping(g, ids, n, y, c.stack)
    && AllAwaited(g, n, c)
  }

  ghost predicate NodesLooping(g: Dag, n: NodeId, y: NodeId, s: State)
    requires s.status.Keys == g.Keys
  {
    forall m | m in g :: NodeLooping(g, n, y, s, m)
  }

  ghost predicate FramesLooping(g: Dag, ids: seq<NodeId>, n: NodeId, y: NodeId, stack: seq<Frame>) {
    forall i | 0 <= i < |stack| :: FrameLooping(g, ids, n, y, stack, i)
  }

  ghost predicate AllAwaited(g: Dag, n: NodeId, c: Config)
    requires c.stack != []
  {
    forall x | x in g && CanExecute(g, c.s.status, x) :: Awaited(g, n, c, x)
  }

  ghost predicate NodeLooping(g: Dag, n: NodeId, y: NodeId, s: State, m: NodeId)
    requires m in g && m in s.status
  {
    if !DependsOn(g, m, n) then s.status[m] == Completed
    else if Between(g, n, m, y) then s.status[m] == Pending || s.status[m] == Failed
    else s.status[m] == Pending || s.status[m] == Running
  }

  ghost function Bottom(c: Config): Frame
    requires c.stack != []
  {
    c.stack[|c.stack| - 1]
  }

  /** The outermost loop is that of `n`, the others belong to nodes between `n` and `y`. */
  ghost predicate FrameLooping(g: Dag, ids: seq<NodeId>, n: NodeId, y: NodeId, stack: seq<Frame>, i: int)
    requires 0 <= i < |stack|
  {
    && stack[i].owner.Some?
    && (if i == |stack| - 1 then stack[i].owner.value == n else Between(g, n, stack[i].owner.value, y))
    && exists k :: 0 <= k <= |Listed(g, ids, stack[i].owner.value)|
                && stack[i].rest == Listed(g, ids, stack[i].owner.value)[k..]
  }

  /** A node that may run is still to come: in the loop of `n` if all its other dependencies had ended before `n`,
      and otherwise in an inner loop. */
  ghost predicate Awaited(g: Dag, n: NodeId, c: Config, x: NodeId)
    requires c.stack != [] && x in g
  {
    || (x in Bottom(c).rest && forall d | d in g[x].deps :: !DependsOn(g, d, n))
    || exists i :: 0 <= i < |c.stack| - 1 && x in c.stack[i].rest
  }

  /** A turn of the innermost loop with a free slot at hand. */
  ghost function Turn(g: Dag, ids: seq<NodeId>, n: NodeId, y: NodeId, c: Config): Config
    requires c.s.status.Keys == c.s.attempts.Keys == g.Keys && c.stack != []
  {
    Visited(Throwing(g, ids, c.s.active + 1, n, y), c)
  }

  /** The turn that schedules `y` from an inner loop. */
  ghost predicate Found(g: Dag, c: Config, y: NodeId) {
    && |c.stack| >= 2 && c.stack[0].rest != [] && c.stack[0].rest[0] == y && CanExecute(g, c.s.status, y)
  }

  lemma LoopCandidate(g: Dag, ids: seq<NodeId>, n: NodeId, y: NodeId, c: Config, i: nat, x: NodeId)
    requires ListsOnce(ids, g.Keys) && i < |c.stack| && FrameLooping(g, ids, n, y, c.stack, i) && x in c.stack[i].rest
    ensures x in g && c.stack[i].owner.value in g[x].deps && DependsOn(g, x, n)
  {
    var z := c.stack[i].owner.value;
    ListedMembers(g, ids, z, x);
    PathStep(g, x, z);
  }

  // ---- when the loop of `n` reaches `y`, it has been found already ----

  lemma PrecedesOnce(ids: seq<NodeId>, all: set<NodeId>, a: NodeId, b: NodeId)
    requires ListsOnce(ids, all) && Precedes(ids, a, b)
    ensures !Precedes(ids, b, a)
  {
    forall x ensures multiset(ids)[x] <= 1 {}
    OnceIsDistinct(ids);
  }

  /** The loop of `n` alone is left, and `y` is its next candidate. */
  ghost predicate AtLast(g: Dag, ids: seq<NodeId>, n: NodeId, y: NodeId, c: Config) {
    Looping(g, ids, n, y, c) && |c.stack| == 1 && c.stack[0].rest[0] == y
  }

  ghost predicate AllContinue(g: Dag, n: NodeId, y: NodeId) {
    forall d | Between(g, n, d, y) :: d in g && g[d].continueOnError
  }

  /** The nodes that fail for good when they throw at once on their first attempt: all of them once the run was
      stopped, and before that those without retries. */
  function Throwers(g: Dag, stops: bool): set<NodeId> {
    set n | n in g && (stops || g[n].maxAttempts <= 1)
  }

  lemma BetweenDown(g: Dag, n: NodeId, y: NodeId, d: NodeId, x: NodeId)
    requires Between(g, n, d, y) && d in g && x in g[d].deps && DependsOn(g, x, n)
    ensures Between(g, n, x, y)
  {
    PathStep(g, d, x);
    Transitive(g, y, d, x);
  }

  lemma SettledBefore(g: Dag, ids: seq<NodeId>, n: NodeId, y: NodeId, c: Config, x: NodeId)
    requires Looping(g, ids, n, y, c) && x in g && AllContinue(g, n, y)
    requires DependsOn(g, x, n) ==> Between(g, n, x, y) && c.s.status[x] == Failed
    ensures Satisfied(g, c.s.status, x)
  {
    assert NodeLooping(g, n, y, c.s, x);
  }

  /** What holds of a node when it holds of its dependencies holds of all. */
  lemma {:induction false} RankInduction(g: Dag, rank: map<NodeId, nat>, among: NodeId -> bool, p: NodeId -> bool,
                                         d: NodeId)
    requires IsRank(g, rank) && among(d)
    requires forall x | among(x) :: x in g
    requires forall x | among(x) && HoldsBelow(g, among, p, x) :: p(x)
    ensures p(d)
    decreases if d in rank then rank[d] else 0
  {
    forall y | y in g[d].deps && among(y) ensures p(y) {
      RankInduction(g, rank, among, p, y);
    }
    assert HoldsBelow(g, among, p, d);
  }

  ghost predicate HoldsBelow(g: Dag, among: NodeId -> bool, p: NodeId -> bool, x: NodeId)
    requires x in g
  {
    forall y | y in g[x].deps && among(y) :: p(y)
  }

  /** Then everything in between has failed. */
  lemma AllBetweenFailed(g: Dag, ids: seq<NodeId>, rank: map<NodeId, nat>, n: NodeId, y: NodeId, c: Config, d: NodeId)
    requires Closed(g) && IsRank(g, rank) && ListsOnce(ids, g.Keys) && Shortcut(g, ids, g.Keys, n, y)
    requires AtLast(g, ids, n, y, c) && AllContinue(g, n, y) && Between(g, n, d, y)
    ensures d in g && c.s.status[d] == Failed
  {
    var between: NodeId -> bool := (x: NodeId) => Between(g, n, x, y);
    var failed: NodeId -> bool := (x: NodeId) => x in c.s.status && c.s.status[x] == Failed;
    forall x | between(x) && HoldsBelow(g, between, failed, x) ensures failed(x) {
      FailsAfterItsDependencies(g, ids, rank, n, y, c, x);
    }
    RankInduction(g, rank, between, failed, d);
  }

  lemma FailsAfterItsDependencies(g: Dag, ids: seq<NodeId>, rank: map<NodeId, nat>, n: NodeId, y: NodeId, c: Config,
                                  d: NodeId)
    requires Closed(g) && IsRank(g, rank) && ListsOnce(ids, g.Keys) && Shortcut(g, ids, g.Keys, n, y)
    requires AtLast(g, ids, n, y, c) && AllContinue(g, n, y) && Between(g, n, d, y) && d in g
    requires forall w | w in g[d].deps && Between(g, n, w, y) :: w in c.s.status && c.s.status[w] == Failed
    ensures d in c.s.status && c.s.status[d] == Failed
  {
    assert NodeLooping(g, n, y, c.s, d);
    if c.s.status[d] == Pending {
      forall x | x in g[d].deps ensures Satisfied(g, c.s.status, x) {
        if DependsOn(g, x, n) { BetweenDown(g, n, y, d, x); }
        SettledBefore(g, ids, n, y, c, x);
      }
      NotLeftBehind(g, ids, rank, n, y, c, d);
    }
  }

  /** The loop of `n` leaves nothing in between behind. */
  lemma NotLeftBehind(g: Dag, ids: seq<NodeId>, rank: map<NodeId, nat>, n: NodeId, y: NodeId, c: Config, d: NodeId)
    requires IsRank(g, rank) && ListsOnce(ids, g.Keys) && Shortcut(g, ids, g.Keys, n, y)
    requires AtLast(g, ids, n, y, c) && Between(g, n, d, y) && d in g
    ensures !CanExecute(g, c.s.status, d)
  {
    if CanExecute(g, c.s.status, d) {
      assert Awaited(g, n, c, d);
      assert forall x | x in g[d].deps :: !Between(g, n, x, y);
      var p :| PathFromTo(g, p, y, d);
      RankFallsAlongPath(g, rank, p);
      assert FrameLooping(g, ids, n, y, c.stack, 0);
      NotAfter(g, ids, n, y, c, d);
    }
  }

  /** What comes after `y` in the loop of `n` does not come before it in the definition. */
  lemma NotAfter(g: Dag, ids: seq<NodeId>, n: NodeId, y: NodeId, c: Config, d: NodeId)
    requires ListsOnce(ids, g.Keys) && |c.stack| == 1 && FrameLooping(g, ids, n, y, c.stack, 0)
    requires c.stack[0].rest != [] && c.stack[0].rest[0] == y && d in c.stack[0].rest && d != y
    ensures !Precedes(ids, d, y)
  {
    var all := Listed(g, ids, n);
    var k :| 0 <= k <= |all| && c.stack[0].rest == all[k..];
    NextThenLater(all, k, y, d);
    ListedOrder(g, ids, n, k + 1, y, d);
    PrecedesOnce(ids, g.Keys, y, d);
  }

  lemma NextThenLater(all: seq<NodeId>, k: nat, y: NodeId, d: NodeId)
    requires k < |all| && all[k] == y && d in all[k..] && d != y
    ensures y in all[..k + 1] && d in all[k + 1..]
  {
    var j :| 0 <= j < |all[k..]| && all[k..][j] == d;
    assert all[..k + 1][k] == y && all[k + 1..][j - 1] == d;
  }

  lemma FoundBeforeItsTurn(g: Dag, ids: seq<NodeId>, rank: map<NodeId, nat>, n: NodeId, y: NodeId, c: Config)
    requires Closed(g) && IsRank(g, rank) && ListsOnce(ids, g.Keys) && Shortcut(g, ids, g.Keys, n, y)
    requires Looping(g, ids, n, y, c) && |c.stack| == 1
    ensures c.stack[0].rest[0] != y
  {
    if c.stack[0].rest[0] == y {
      forall x | x in g[y].deps ensures Satisfied(g, c.s.status, x) {
        if DependsOn(g, x, n) {
          PathStep(g, y, x);
          AllBetweenFailed(g, ids, rank, n, y, c, x);
        }
        SettledBefore(g, ids, n, y, c, x);
      }
      assert CanExecute(g, c.s.status, y) && Awaited(g, n, c, y);
      var d :| Between(g, n, d, y);
      var x := FirstOnTheWay(g, y, d);
      if x != d { Transitive(g, x, d, n); }
    }
  }

  lemma FirstOnTheWay(g: Dag, y: NodeId, d: NodeId) returns (x: NodeId)
    requires DependsOn(g, y, d)
    ensures y in g && x in g[y].deps && (x == d || DependsOn(g, x, d))
  {
    var p :| PathFromTo(g, p, y, d);
    assert p[0] in g && p[0 + 1] in g[p[0]].deps;
    x := p[1];
    if |p| > 2 {
      TailIsPath(g, p);
      assert PathFromTo(g, p[1..], x, d);
    }
  }

  // ---- every turn keeps the picture ----

  lemma PoppedFrames(g: Dag, ids: seq<NodeId>, n: NodeId, y: NodeId, stack: seq<Frame>)
    requires stack != [] && stack[0].rest != [] && forall i | 0 <= i < |stack| :: FrameLooping(g, ids, n, y, stack, i)
    ensures forall i | 0 <= i < |stack| :: FrameLooping(g, ids, n, y, Popped(stack), i)
  {
    var p := Popped(stack);
    assert forall i | 0 < i < |p| :: p[i] == stack[i];
    forall i | 0 <= i < |p| ensures FrameLooping(g, ids, n, y, p, i) {
      assert FrameLooping(g, ids, n, y, stack, i);
      if i == 0 {
        var all := Listed(g, ids, stack[0].owner.value);
        var k :| 0 <= k <= |all| && stack[0].rest == all[k..];
        assert p[0].rest == all[k + 1..];
      }
    }
  }

  lemma PushedFrames(g: Dag, ids: seq<NodeId>, n: NodeId, y: NodeId, stack: seq<Frame>, x: NodeId)
    requires stack != [] && (forall i | 0 <= i < |stack| :: FrameLooping(g, ids, n, y, stack, i)) && Between(g, n, x, y)
    ensures var p := [Frame(Some(x), Listed(g, ids, x))] + stack;
      forall i | 0 <= i < |p| :: FrameLooping(g, ids, n, y, p, i)
  {
    var p := [Frame(Some(x), Listed(g, ids, x))] + stack;
    forall i | 0 <= i < |p| ensures FrameLooping(g, ids, n, y, p, i) {
      if i == 0 {
        assert p[0].rest == Listed(g, ids, x)[0..];
      } else {
        assert p[i] == stack[i - 1] && FrameLooping(g, ids, n, y, stack, i - 1);
      }
    }
  }

  /** A node that may run and is not the one just taken is still to come. */
  lemma StillAwaited(g: Dag, n: NodeId, c: Config, x: NodeId, z: NodeId)
    requires c.stack != [] && c.stack[0].rest != [] && c.stack[0].rest[0] == x && z in g && z != x
      && Awaited(g, n, c, z)
    ensures Awaited(g, n, Config(c.s, Popped(c.stack)), z)
  {
    var p := Popped(c.stack);
    assert forall i | 0 < i < |p| :: p[i] == c.stack[i];
    if i :| 0 <= i < |c.stack| - 1 && z in c.stack[i].rest {
      assert z in p[i].rest;
    }
  }

  lemma AwaitedBelow(g: Dag, n: NodeId, c: Config, f: Frame, z: NodeId)
    requires c.stack != [] && z in g && Awaited(g, n, c, z)
    ensures Awaited(g, n, Config(c.s, [f] + c.stack), z)
  {
    var p := [f] + c.stack;
    assert p[|p| - 1] == Bottom(c);
    if i :| 0 <= i < |c.stack| - 1 && z in c.stack[i].rest {
      assert z in p[i + 1].rest;
    }
  }

  /** The innermost of several loops ends. */
  lemma EndKeepsLooping(g: Dag, ids: seq<NodeId>, n: NodeId, y: NodeId, c: Config)
    requires Looping(g, ids, n, y, c) && c.stack[0].rest == []
    ensures Looping(g, ids, n, y, Config(c.s, c.stack[1..]))
  {
    var c' := Config(c.s, c.stack[1..]);
    assert |c.stack| > 1 && Bottom(c') == Bottom(c);
    forall i | 0 <= i < |c'.stack| ensures FrameLooping(g, ids, n, y, c'.stack, i) {
      assert FrameLooping(g, ids, n, y, c.stack, i + 1);
    }
    forall x | x in g && CanExecute(g, c.s.status, x) ensures Awaited(g, n, c', x) {
      assert Awaited(g, n, c, x);
      if i :| 0 <= i < |c.stack| - 1 && x in c.stack[i].rest { assert x in c'.stack[i - 1].rest; }
    }
  }

  lemma BottomKept(g: Dag, ids: seq<NodeId>, n: NodeId, y: NodeId, c: Config)
    requires Looping(g, ids, n, y, c) && c.stack[0].rest != [] && (|c.stack| == 1 ==> c.stack[0].rest[0] != y)
    ensures y in Bottom(Config(c.s, Popped(c.stack))).rest
  {
    var p := Popped(c.stack);
    assert |c.stack| > 1 ==> p[|p| - 1] == c.stack[|p| - 1];
  }

  /** A candidate that may not run is passed over. */
  lemma SkipKeepsLooping(g: Dag, ids: seq<NodeId>, n: NodeId, y: NodeId, c: Config)
    requires Looping(g, ids, n, y, c) && c.stack[0].rest != [] && (|c.stack| == 1 ==> c.stack[0].rest[0] != y)
    requires !CanExecute(g, c.s.status, c.stack[0].rest[0])
    ensures Looping(g, ids, n, y, Config(c.s, Popped(c.stack)))
  {
    PoppedFrames(g, ids, n, y, c.stack);
    BottomKept(g, ids, n, y, c);
    forall z | z in g && CanExecute(g, c.s.status, z) ensures Awaited(g, n, Config(c.s, Popped(c.stack)), z) {
      StillAwaited(g, n, c, c.stack[0].rest[0], z);
    }
  }

  lemma NodesAfter(g: Dag, n: NodeId, y: NodeId, s: State, s': State, x: NodeId, st: Status)
    requires s.status.Keys == g.Keys && NodesLooping(g, n, y, s) && x in g && DependsOn(g, x, n)
    requires s'.status == s.status[x := st] && st == if Between(g, n, x, y) then Failed else Running
    ensures NodesLooping(g, n, y, s')
  {
    forall m | m in g ensures NodeLooping(g, n, y, s', m) { assert NodeLooping(g, n, y, s, m); }
  }

  /** A candidate that is not in between starts and stays in its handler. */
  lemma StartKeepsLooping(g: Dag, ids: seq<NodeId>, n: NodeId, y: NodeId, c: Config, x: NodeId)
    requires Looping(g, ids, n, y, c) && c.stack[0].rest != [] && c.stack[0].rest[0] == x && x != y
    requires CanExecute(g, c.s.status, x) && DependsOn(g, x, n) && !Between(g, n, x, y)
    ensures Looping(g, ids, n, y, Config(Begin(c.s, x), Popped(c.stack)))
  {
    var s' := Begin(c.s, x);
    var c' := Config(s', Popped(c.stack));
    PoppedFrames(g, ids, n, y, c.stack);
    BottomKept(g, ids, n, y, c);
    NodesAfter(g, n, y, c.s, s', x, Running);
    forall z | z in g && CanExecute(g, s'.status, z) ensures Awaited(g, n, c', z) {
      forall d | d in g[z].deps ensures Satisfied(g, c.s.status, d) { assert Satisfied(g, s'.status, d); }
      StillAwaited(g, n, c, x, z);
    }
  }

  /** A candidate in between fails at once, and the loop over its dependents comes on top. */
  lemma ThrowKeepsLooping(g: Dag, ids: seq<NodeId>, n: NodeId, y: NodeId, c: Config, x: NodeId)
    requires ListsOnce(ids, g.Keys) && Looping(g, ids, n, y, c)
    requires c.stack[0].rest != [] && c.stack[0].rest[0] == x && x != y
    requires CanExecute(g, c.s.status, x) && DependsOn(g, x, n) && Between(g, n, x, y)
    ensures Looping(g, ids, n, y, Config(Leave(Begin(c.s, x), x, Failed),
                                         [Frame(Some(x), Listed(g, ids, x))] + Popped(c.stack)))
  {
    var s', p, f := Leave(Begin(c.s, x), x, Failed), Popped(c.stack), Frame(Some(x), Listed(g, ids, x));
    var c' := Config(s', [f] + p);
    PoppedFrames(g, ids, n, y, c.stack);
    PushedFrames(g, ids, n, y, p, x);
    BottomKept(g, ids, n, y, c);
    assert Bottom(c') == Bottom(Config(c.s, p));
    NodesAfter(g, n, y, c.s, s', x, Failed);
    forall z | z in g && CanExecute(g, s'.status, z) ensures Awaited(g, n, c', z) {
      AwaitedAfterThrow(g, ids, n, c, x, s', z);
    }
  }

  lemma AwaitedAfterThrow(g: Dag, ids: seq<NodeId>, n: NodeId, c: Config, x: NodeId, s': State, z: NodeId)
    requires ListsOnce(ids, g.Keys) && c.stack != [] && c.stack[0].rest != [] && c.stack[0].rest[0] == x
      && x in c.s.status
    requires s'.status == c.s.status[x := Failed] && z in g && CanExecute(g, s'.status, z)
    requires forall w | w in g && CanExecute(g, c.s.status, w) :: Awaited(g, n, c, w)
    ensures Awaited(g, n, Config(s', [Frame(Some(x), Listed(g, ids, x))] + Popped(c.stack)), z)
  {
    var p, f := Popped(c.stack), Frame(Some(x), Listed(g, ids, x));
    var stack := [f] + p;
    if x in g[z].deps {
      ListedMembers(g, ids, x, z);
      assert z in stack[0].rest;
    } else {
      forall d | d in g[z].deps ensures Satisfied(g, c.s.status, d) { assert Satisfied(g, s'.status, d); }
      StillAwaited(g, n, c, x, z);
      AwaitedBelow(g, n, Config(c.s, p), f, z);
    }
  }

  /** What a turn does to a candidate that may run, with a free slot. */
  lemma TurnStarts(g: Dag, ids: seq<NodeId>, limit: int, n: NodeId, y: NodeId, c: Config, x: NodeId)
    requires Looping(g, ids, n, y, c) && c.stack[0].rest != [] && c.stack[0].rest[0] == x
    requires CanExecute(g, c.s.status, x) && c.s.active < limit
    requires c.s.running && Between(g, n, x, y) ==> g[x].maxAttempts <= 1
    ensures Visited(Throwing(g, ids, limit, n, y), c) ==
            if !Between(g, n, x, y) then Config(Begin(c.s, x), Popped(c.stack))
            else if g[x].continueOnError then Config(Leave(Begin(c.s, x), x, Failed),
              [Frame(Some(x), Listed(g, ids, x))] + Popped(c.stack))
            else Config(FinishBlocking(g, Begin(c.s, x), x), Popped(c.stack))
  {}

  lemma TurnPasses(g: Dag, ids: seq<NodeId>, limit: int, n: NodeId, y: NodeId, c: Config)
    requires Looping(g, ids, n, y, c)
    ensures c.stack[0].rest == [] ==> Visited(Throwing(g, ids, limit, n, y), c) == Config(c.s, c.stack[1..])
    ensures c.stack[0].rest != [] && !CanExecute(g, c.s.status, c.stack[0].rest[0])
            ==> Visited(Throwing(g, ids, limit, n, y), c) == Config(c.s, Popped(c.stack))
  {}

  /** In a run that goes on, the nodes in between have no retries. */
  ghost predicate NoRetries(g: Dag, n: NodeId, y: NodeId, running: bool) {
    running ==> forall d | Between(g, n, d, y) && d in g :: g[d].maxAttempts <= 1
  }

  /** The picture stays, and something gets less. */
  ghost predicate Advances(g: Dag, ids: seq<NodeId>, n: NodeId, y: NodeId, c: Config, c': Config) {
    && Looping(g, ids, n, y, c') && c'.s.active >= c.s.active && c'.s.running == c.s.running
    && (PendingSet(c'.s.status) < PendingSet(c.s.status) || (c'.s == c.s && Size(c'.stack) < Size(c.stack)))
  }

  lemma PassAdvances(g: Dag, ids: seq<NodeId>, n: NodeId, y: NodeId, c: Config)
    requires Looping(g, ids, n, y, c) && (|c.stack| == 1 && c.stack[0].rest != [] ==> c.stack[0].rest[0] != y)
    requires c.stack[0].rest == [] || !CanExecute(g, c.s.status, c.stack[0].rest[0])
    ensures Advances(g, ids, n, y, c, Turn(g, ids, n, y, c))
  {
    SizeFalls(c.stack);
    TurnPasses(g, ids, c.s.active + 1, n, y, c);
    if c.stack[0].rest == [] { EndKeepsLooping(g, ids, n, y, c); } else { SkipKeepsLooping(g, ids, n, y, c); }
  }

  lemma FewerPending(g: Dag, ids: seq<NodeId>, n: NodeId, y: NodeId, c: Config, c': Config, x: NodeId, st: Status)
    requires Looping(g, ids, n, y, c') && c'.s.active == c.s.active + 1 && c'.s.running == c.s.running
    requires x in c.s.status && c.s.status[x] == Pending && c'.s.status == c.s.status[x := st] && st != Pending
    ensures Advances(g, ids, n, y, c, c')
  {
    assert PendingSet(c'.s.status) == PendingSet(c.s.status) - {x};
  }

  lemma StartAdvances(g: Dag, ids: seq<NodeId>, n: NodeId, y: NodeId, c: Config, x: NodeId)
    requires ListsOnce(ids, g.Keys) && AllContinue(g, n, y) && Looping(g, ids, n, y, c)
      && NoRetries(g, n, y, c.s.running)
    requires c.stack[0].rest != [] && c.stack[0].rest[0] == x && x != y && CanExecute(g, c.s.status, x)
    ensures Advances(g, ids, n, y, c, Turn(g, ids, n, y, c))
  {
    assert FrameLooping(g, ids, n, y, c.stack, 0);
    LoopCandidate(g, ids, n, y, c, 0, x);
    TurnStarts(g, ids, c.s.active + 1, n, y, c, x);
    if Between(g, n, x, y) {
      ThrowAdvances(g, ids, n, y, c, x);
    } else {
      StartKeepsLooping(g, ids, n, y, c, x);
      FewerPending(g, ids, n, y, c, Config(Begin(c.s, x), Popped(c.stack)), x, Running);
    }
  }

  lemma ThrowAdvances(g: Dag, ids: seq<NodeId>, n: NodeId, y: NodeId, c: Config, x: NodeId)
    requires ListsOnce(ids, g.Keys) && Looping(g, ids, n, y, c)
    requires c.stack[0].rest != [] && c.stack[0].rest[0] == x && x != y
    requires CanExecute(g, c.s.status, x) && DependsOn(g, x, n) && Between(g, n, x, y)
    ensures Advances(g, ids, n, y, c, Config(Leave(Begin(c.s, x), x, Failed),
                                             [Frame(Some(x), Listed(g, ids, x))] + Popped(c.stack)))
  {
    ThrowKeepsLooping(g, ids, n, y, c, x);
    var s' := Leave(Begin(c.s, x), x, Failed);
    assert s'.status == c.s.status[x := Failed];
    FewerPending(g, ids, n, y, c, Config(s', [Frame(Some(x), Listed(g, ids, x))] + Popped(c.stack)), x, Failed);
  }

  /** A turn that has not found `y` yet. */
  lemma TurnAdvances(g: Dag, ids: seq<NodeId>, rank: map<NodeId, nat>, n: NodeId, y: NodeId, c: Config)
    requires Closed(g) && IsRank(g, rank) && ListsOnce(ids, g.Keys) && Shortcut(g, ids, g.Keys, n, y)
    requires Looping(g, ids, n, y, c) && !Found(g, c, y) && NoRetries(g, n, y, c.s.running)
    ensures Advances(g, ids, n, y, c, Turn(g, ids, n, y, c))
  {
    assert AllContinue(g, n, y);
    if |c.stack| == 1 { FoundBeforeItsTurn(g, ids, rank, n, y, c); }
    if c.stack[0].rest == [] || !CanExecute(g, c.s.status, c.stack[0].rest[0]) {
      PassAdvances(g, ids, n, y, c);
    } else {
      StartAdvances(g, ids, n, y, c, c.stack[0].rest[0]);
    }
  }

  lemma TurnAtLimit(g: Dag, ids: seq<NodeId>, limit: int, n: NodeId, y: NodeId, c: Config)
    requires Looping(g, ids, n, y, c) && limit >= Turn(g, ids, n, y, c).s.active && NoRetries(g, n, y, c.s.running)
    ensures Visited(Throwing(g, ids, limit, n, y), c) == Turn(g, ids, n, y, c)
  {
    TurnPasses(g, ids, limit, n, y, c);
    TurnPasses(g, ids, c.s.active + 1, n, y, c);
    if c.stack[0].rest != [] && CanExecute(g, c.s.status, c.stack[0].rest[0]) {
      var x := c.stack[0].rest[0];
      TurnStarts(g, ids, c.s.active + 1, n, y, c, x);
      assert Turn(g, ids, n, y, c).s.active == c.s.active + 1;
      TurnStarts(g, ids, limit, n, y, c, x);
    }
  }

  lemma TurnIsMove(g: Dag, ids: seq<NodeId>, entries: seq<NodeId>, stops: bool, limit: int, n: NodeId, y: NodeId,
                   c: Config, next: Config)
    requires Looping(g, ids, n, y, c) && next == Turn(g, ids, n, y, c) && limit >= next.s.active
    requires NoRetries(g, n, y, c.s.running)
    ensures var e := Throwing(g, ids, limit, n, y);
      Reachable(e, entries, stops, c) ==> Reachable(e, entries, stops, next)
  {
    TurnAtLimit(g, ids, limit, n, y, c);
    var e := Throwing(g, ids, limit, n, y);
    if Reachable(e, entries, stops, c) { ReachMore(e, entries, stops, c, Visit, next); }
  }

  /** Turn after turn, until `y` is found. With the number of slots then in use as the limit, the run gets there. */
  lemma {:induction false} TurnUntilFound(g: Dag, ids: seq<NodeId>, rank: map<NodeId, nat>, entries: seq<NodeId>,
                                         stops: bool, n: NodeId, y: NodeId, c: Config) returns (c': Config)
    requires Closed(g) && IsRank(g, rank) && ListsOnce(ids, g.Keys) && Shortcut(g, ids, g.Keys, n, y)
    requires Looping(g, ids, n, y, c) && NoRetries(g, n, y, c.s.running)
    ensures Looping(g, ids, n, y, c') && Found(g, c', y) && c'.s.active >= c.s.active
    ensures var e := Throwing(g, ids, c'.s.active, n, y);
      Reachable(e, entries, stops, c) ==> Reachable(e, entries, stops, c')
    decreases PendingSet(c.s.status), Size(c.stack)
  {
    if Found(g, c, y) {
      c' := c;
    } else {
      TurnAdvances(g, ids, rank, n, y, c);
      var next := Turn(g, ids, n, y, c);
      c' := TurnUntilFound(g, ids, rank, entries, stops, n, y, next);
      TurnIsMove(g, ids, entries, stops, c'.s.active, n, y, c, next);
    }
  }

  // ---- with the slots gone, the loops only queue ----

  /** No slot is free, and `y` may run, is waiting, and is still to come in the loop of `n`. */
  ghost predicate Queueing(g: Dag, limit: int, y: NodeId, c: Config) {
    && c.s.status.Keys == c.s.attempts.Keys == g.Keys && c.s.active >= limit
    && c.stack != [] && y in Bottom(c).rest && CanExecute(g, c.s.status, y) && c.s.waiting[y] >= 1
  }

  lemma QueueTurn(e: Env, c: Config, y: NodeId)
    requires Queueing(e.g, e.limit, y, c) && !(|c.stack| == 1 && c.stack[0].rest[0] == y)
    ensures Queueing(e.g, e.limit, y, Visited(e, c)) && Size(Visited(e, c).stack) < Size(c.stack)
  {
    SizeFalls(c.stack);
    var c' := Visited(e, c);
    if c.stack[0].rest == [] {
      assert Bottom(c') == Bottom(c);
    } else {
      assert |c.stack| > 1 ==> Bottom(c') == Bottom(c);
    }
  }

  lemma {:induction false} QueueTwice(e: Env, entries: seq<NodeId>, stops: bool, c: Config, y: NodeId)
    returns (c': Config)
    requires Queueing(e.g, e.limit, y, c) && Reachable(e, entries, stops, c)
    ensures Reachable(e, entries, stops, c') && c'.s.waiting[y] >= 2
    decreases Size(c.stack)
  {
    var next := Visited(e, c);
    assert Moves(e, c, Visit, next);
    ReachMore(e, entries, stops, c, Visit, next);
    if |c.stack| == 1 && c.stack[0].rest[0] == y {
      c' := next;
    } else {
      QueueTurn(e, c, y);
      c' := QueueTwice(e, entries, stops, next, y);
    }
  }

  lemma FoundIsQueued(g: Dag, ids: seq<NodeId>, n: NodeId, y: NodeId, c: Config)
    requires Looping(g, ids, n, y, c) && Found(g, c, y)
    ensures var e := Throwing(g, ids, c.s.active, n, y); Queueing(g, c.s.active, y, Visited(e, c))
  {
    var p := Popped(c.stack);
    assert p[|p| - 1] == Bottom(c);
  }

  // ---- the run ----

  /** The loop of `n` as it starts, when all else is through or has not begun. */
  ghost function LoopStart(g: Dag, ids: seq<NodeId>, n: NodeId, running: bool): Config {
    Config(Leave(Poised(g, n).(running := running), n, Completed), [Frame(Some(n), Listed(g, ids, n))])
  }

  lemma LoopStartIsReachable(g: Dag, ids: seq<NodeId>, limit: int, rank: map<NodeId, nat>, entries: seq<NodeId>,
                             stops: bool, n: NodeId, y: NodeId)
    requires Proper(g, ids, rank, entries) && n in g && limit >= 2
    ensures Reachable(Throwing(g, ids, limit, n, y), entries, stops, LoopStart(g, ids, n, !stops))
  {
    var e := Throwing(g, ids, limit, n, y);
    PoisedIsReachable(g, ids, limit, rank, entries, stops, n, y);
    NotOnItself(g, rank, n);
    var c0 := Config(Poised(g, n), []);
    var c1 := Config(Poised(g, n).(running := !stops), []);
    if stops {
      assert Moves(e, c0, Async(Stop), c1);
      ReachMore(e, entries, stops, c0, Async(Stop), c1);
    } else {
      assert c1 == c0;
    }
    assert Moves(e, c1, Async(Resolve(n)), LoopStart(g, ids, n, !stops));
    ReachMore(e, entries, stops, c1, Async(Resolve(n)), LoopStart(g, ids, n, !stops));
  }

  lemma NotOnItself(g: Dag, rank: map<NodeId, nat>, n: NodeId)
    requires IsRank(g, rank)
    ensures !DependsOn(g, n, n)
  {
    if DependsOn(g, n, n) {
      var p :| PathFromTo(g, p, n, n);
      RankFallsAlongPath(g, rank, p);
    }
  }

  lemma LoopStartLoops(g: Dag, ids: seq<NodeId>, rank: map<NodeId, nat>, n: NodeId, y: NodeId, running: bool)
    requires Closed(g) && IsRank(g, rank) && ListsOnce(ids, g.Keys) && n in g && y in g && n in g[y].deps
    ensures Looping(g, ids, n, y, LoopStart(g, ids, n, running))
  {
    NotOnItself(g, rank, n);
    PathStep(g, y, n);
    ListedMembers(g, ids, n, y);
    FrameAtStart(g, ids, n, y, running);
    NodesAtStart(g, ids, n, y, running);
    AllAwaitedAtStart(g, ids, rank, n, running);
  }

  lemma FrameAtStart(g: Dag, ids: seq<NodeId>, n: NodeId, y: NodeId, running: bool)
    ensures FramesLooping(g, ids, n, y, LoopStart(g, ids, n, running).stack)
  {
    assert LoopStart(g, ids, n, running).stack[0].rest == Listed(g, ids, n)[0..];
  }

  lemma NodesAtStart(g: Dag, ids: seq<NodeId>, n: NodeId, y: NodeId, running: bool)
    requires n in g && !DependsOn(g, n, n)
    ensures LoopStart(g, ids, n, running).s.status.Keys == g.Keys
    ensures NodesLooping(g, n, y, LoopStart(g, ids, n, running).s)
  {
    forall m | m in g ensures NodeLooping(g, n, y, LoopStart(g, ids, n, running).s, m) {
      NodeAtStart(g, ids, n, y, running, m);
    }
  }

  lemma AllAwaitedAtStart(g: Dag, ids: seq<NodeId>, rank: map<NodeId, nat>, n: NodeId, running: bool)
    requires Closed(g) && IsRank(g, rank) && ListsOnce(ids, g.Keys) && n in g
    ensures AllAwaited(g, n, LoopStart(g, ids, n, running))
  {
    var c := LoopStart(g, ids, n, running);
    forall x | x in g && CanExecute(g, c.s.status, x) ensures Awaited(g, n, c, x) {
      AwaitedAtStart(g, ids, rank, n, x, running);
    }
  }

  lemma NodeAtStart(g: Dag, ids: seq<NodeId>, n: NodeId, y: NodeId, running: bool, m: NodeId)
    requires n in g && m in g && !DependsOn(g, n, n)
    ensures NodeLooping(g, n, y, LoopStart(g, ids, n, running).s, m)
  {}

  lemma AwaitedAtStart(g: Dag, ids: seq<NodeId>, rank: map<NodeId, nat>, n: NodeId, x: NodeId, running: bool)
    requires Closed(g) && IsRank(g, rank) && ListsOnce(ids, g.Keys) && n in g && x in g
    requires CanExecute(g, LoopStart(g, ids, n, running).s.status, x)
    ensures Awaited(g, n, LoopStart(g, ids, n, running), x)
  {
    var status := LoopStart(g, ids, n, running).s.status;
    NotOnItself(g, rank, n);
    forall d | d in g[x].deps ensures !DependsOn(g, d, n) { assert Satisfied(g, status, d); }
    var d := FirstOnTheWay(g, x, n);
    ListedMembers(g, ids, n, x);
  }

  lemma ShortcutHas(g: Dag, ids: seq<NodeId>, stops: bool, n: NodeId, y: NodeId)
    requires Closed(g) && Shortcut(g, ids, Throwers(g, stops), n, y)
    ensures Shortcut(g, ids, g.Keys, n, y) && NoRetries(g, n, y, !stops) && n in g
  {}

  /** A shortcut gets used: some limit and some handlers make a run schedule `y` twice. */
  lemma ShortcutIsTaken(g: Dag, ids: seq<NodeId>, rank: map<NodeId, nat>, entries: seq<NodeId>, stops: bool,
                        n: NodeId, y: NodeId)
    returns (limit: int, c: Config)
    requires Proper(g, ids, rank, entries) && Shortcut(g, ids, Throwers(g, stops), n, y)
    ensures Reachable(Throwing(g, ids, limit, n, y), entries, stops, c) && c.s.waiting[y] >= 2
  {
    ShortcutHas(g, ids, stops, n, y);
    LoopStartLoops(g, ids, rank, n, y, !stops);
    var found := TurnUntilFound(g, ids, rank, entries, stops, n, y, LoopStart(g, ids, n, !stops));
    limit := found.s.active;
    var e := Throwing(g, ids, limit, n, y);
    LoopStartIsReachable(g, ids, limit, rank, entries, stops, n, y);
    FoundIsQueued(g, ids, n, y, found);
    var queued := Visited(e, found);
    assert Moves(e, found, Visit, queued);
    ReachMore(e, entries, stops, found, Visit, queued);
    c := QueueTwice(e, entries, stops, queued, y);
  }

  /** Whatever the limit, the outcomes and the attempts that throw at once, no node is ever scheduled twice. With
      `stops`, runs may be stopped on the way. */
  ghost predicate NeverTwice(g: Dag, ids: seq<NodeId>, entries: seq<NodeId>, stops: bool) {
    forall e: Env, c: Config, x: NodeId | e.g == g && e.ids == ids && Reachable(e, entries, stops, c) :: !Twice(c, x)
  }

  /** Two calls for the same node are suspended. */
  ghost predicate Twice(c: Config, x: NodeId) {
    c.s.waiting[x] + c.s.inHandler[x] + c.s.backoff[x] >= 2
  }

  /** The exact condition on the definition: no node is ever scheduled twice, whatever the handlers do, if and
      only if there is no shortcut, through nodes without retries, or through any nodes if runs may be stopped. */
  lemma NeverTwiceExactly(g: Dag, ids: seq<NodeId>, rank: map<NodeId, nat>, entries: seq<NodeId>, stops: bool)
    requires Proper(g, ids, rank, entries)
    ensures NeverTwice(g, ids, entries, stops) <==> NoShortcut(g, ids, Throwers(g, stops))
  {
    if NoShortcut(g, ids, Throwers(g, stops)) {
      NoShortcutNeverTwice(g, ids, rank, entries, stops);
    } else {
      var n, y :| Shortcut(g, ids, Throwers(g, stops), n, y);
      ShortcutMeansTwice(g, ids, rank, entries, stops, n, y);
    }
  }

  lemma NoShortcutNeverTwice(g: Dag, ids: seq<NodeId>, rank: map<NodeId, nat>, entries: seq<NodeId>, stops: bool)
    requires Proper(g, ids, rank, entries) && NoShortcut(g, ids, Throwers(g, stops))
    ensures NeverTwice(g, ids, entries, stops)
  {
    forall e: Env, c: Config, x: NodeId | e.g == g && e.ids == ids && Reachable(e, entries, stops, c)
      ensures !Twice(c, x)
    {
      OnceOnly(e, rank, entries, stops, c, x);
    }
  }

  lemma ShortcutMeansTwice(g: Dag, ids: seq<NodeId>, rank: map<NodeId, nat>, entries: seq<NodeId>, stops: bool,
                           n: NodeId, y: NodeId)
    requires Proper(g, ids, rank, entries) && Shortcut(g, ids, Throwers(g, stops), n, y)
    ensures !NeverTwice(g, ids, entries, stops)
  {
    var limit, c := ShortcutIsTaken(g, ids, rank, entries, stops, n, y);
    Refutes(Throwing(g, ids, limit, n, y), entries, stops, c, y);
  }

  lemma Refutes(e: Env, entries: seq<NodeId>, stops: bool, c: Config, x: NodeId)
    requires Reachable(e, entries, stops, c) && Twice(c, x)
    ensures !NeverTwice(e.g, e.ids, entries, stops)
  {}

  lemma OnceOnly(e: Env, rank: map<NodeId, nat>, entries: seq<NodeId>, stops: bool, c: Config, x: NodeId)
    requires Sound(e, rank, entries) && NoShortcut(e.g, e.ids, Throwers(e.g, stops)) && Reachable(e, entries, stops, c)
    ensures !Twice(c, x)
  {
    var events, configs :| IsStackRun(e, entries, events, configs) && (stops || GoesOn(events))
      && configs[|events|] == c;
    var throwers := Throwers(e.g, stops);
    StackSafety(e, rank, entries, throwers, events, configs, |events|);
    StackRunInv(e, rank, entries, throwers, events, configs, |events|);
    if x !in e.g { assert Quiet(Abs(e.g, c.s), x); }
  }
}
