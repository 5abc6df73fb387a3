/** The scheduler with nodes that throw at once: there is no handler for them, or it throws synchronously instead of
    returning a promise. Such a node fails inside the very loop that schedules it, and its own dependents are scheduled
    in a loop inside that loop. The state therefore carries the call stack: the scheduling loops that are under way. */
module SchedulerStack {
  import opened Common
  import opened Graph
  import opened SchedulerModel

  /** What a run is given: the graph, its nodes in the order of the definition, the limit, which attempts
      succeed, and which attempts throw at once. */
  datatype Env = Env(g: Dag, ids: seq<NodeId>, limit: int, o: Oracle, throws: Oracle)

  /** A scheduling loop under way: the node whose end started it, if any, and the candidates still to come. */
  datatype Frame = Frame(owner: Option<NodeId>, rest: seq<NodeId>)

  /** The innermost loop comes first. */
  datatype Config = Config(s: State, stack: seq<Frame>)

  datatype Event =
    | Visit            // the innermost loop turns to its next candidate, or ends
    | Async(a: Action) // with no loop under way, one of the suspended calls goes on

  /** An attempt that throws at once fails, whatever the handler would have done. */
  ghost function Outcomes(e: Env): Oracle {
    (n: NodeId, k: nat) => e.o(n, k) && !e.throws(n, k)
  }

  /** The loop over the dependents of a node that has just ended. */
  function LoopOf(e: Env, n: NodeId): Frame {
    Frame(Some(n), Listed(e.g, e.ids, n))
  }

  /** Leave the handler with the given final status; the loop over the dependents is still to come. */
  function Leave(s: State, n: NodeId, final: Status): State {
    s.(status := s.status[n := final], inHandler := s.inHandler - multiset{n}, finishing := s.finishing + 1)
  }

  /** The catch block, up to its next await. */
  ghost function Caught(e: Env, s: State, stack: seq<Frame>, n: NodeId): Config
    requires n in e.g && n in s.attempts
  {
    if s.running && s.attempts[n] < e.g[n].maxAttempts then Config(Apply(e.g, s, Reject(n)), stack)
    else if e.g[n].continueOnError then Config(Leave(s, n, Failed), [LoopOf(e, n)] + stack)
    else Config(FinishBlocking(e.g, s, n), stack)
  }

  /** The call of the handler, which may throw at once. */
  ghost function Called(e: Env, s: State, stack: seq<Frame>, n: NodeId): Config
    requires n in e.g && n in s.attempts
  {
    if e.throws(n, s.attempts[n]) then Caught(e, s, stack, n) else Config(s, stack)
  }

  /** The innermost loop and the rest of the stack after its next candidate is taken. */
  function Popped(stack: seq<Frame>): seq<Frame>
    requires stack != [] && stack[0].rest != []
  {
    [Frame(stack[0].owner, stack[0].rest[1..])] + stack[1..]
  }

  ghost predicate Known(e: Env, s: State) {
    s.status.Keys == s.attempts.Keys == e.g.Keys
  }

  ghost function Visited(e: Env, c: Config): Config
    requires Known(e, c.s) && c.stack != []
  {
    if c.stack[0].rest == [] then Config(c.s, c.stack[1..])
    else
      var x := c.stack[0].rest[0];
      if !CanExecute(e.g, c.s.status, x) then Config(c.s, Popped(c.stack))
      else if c.s.active >= e.limit then Config(c.s.(waiting := c.s.waiting + multiset{x}), Popped(c.stack))
      else Called(e, Begin(c.s, x), Popped(c.stack), x)
  }

  ghost predicate Possible(e: Env, c: Config, v: Event) {
    match v
    case Visit => c.stack != []
    case Async(a) => c.stack == [] && Enabled(e.g, e.limit, Outcomes(e), c.s, a)
  }

  ghost function After(e: Env, c: Config, v: Event): Config
    requires Known(e, c.s) && Possible(e, c, v)
  {
    match v
    case Visit => Visited(e, c)
    case Async(a) =>
      match a
      case Acquire(n) => if n in e.g then Called(e, Apply(e.g, c.s, a), [], n) else c
      case Reacquire(n) => if n in e.g then Called(e, Apply(e.g, c.s, a), [], n) else c
      case Resolve(n) => Config(Leave(c.s, n, Completed), [LoopOf(e, n)])
      case Reject(n) => if n in e.g then Caught(e, c.s, [], n) else c
      case Release => Config(Apply(e.g, c.s, a), [])
      case Stop => Config(Apply(e.g, c.s, a), [])
  }

  /** A run starts in the loop over the entry nodes. */
  ghost function Start(e: Env, entries: seq<NodeId>): Config {
    Config(Init(e.g, entries).(waiting := multiset{}), [Frame(None, entries)])
  }

  ghost predicate Moves(e: Env, c: Config, v: Event, c': Config) {
    Known(e, c.s) && Possible(e, c, v) && c' == After(e, c, v)
  }

  ghost predicate IsStackRun(e: Env, entries: seq<NodeId>, events: seq<Event>, configs: seq<Config>) {
    && |configs| == |events| + 1
    && configs[0] == Start(e, entries)
    && forall i | 0 <= i < |events| :: Moves(e, configs[i], events[i], configs[i + 1])
  }

  // ---- stretches: turns of the loops under way ----

  ghost predicate Turns(e: Env, c: Config, k: nat, c': Config)
    decreases k
  {
    if k == 0 then c' == c else Known(e, c.s) && c.stack != [] && Turns(e, Visited(e, c), k - 1, c')
  }

  /** Some number of turns leads from `c` to `c'`. */
  ghost predicate Stretch(e: Env, c: Config, c': Config) {
    exists k: nat :: Turns(e, c, k, c')
  }

  lemma NoTurn(e: Env, c: Config)
    ensures Stretch(e, c, c)
  {
    assert Turns(e, c, 0, c);
  }

  lemma {:induction false} TurnsOn(e: Env, c: Config, k: nat, c': Config, l: nat, c'': Config)
    requires Turns(e, c, k, c') && Turns(e, c', l, c'')
    ensures Turns(e, c, k + l, c'')
    decreases k
  {
    if k > 0 { TurnsOn(e, Visited(e, c), k - 1, c', l, c''); }
  }

  lemma StretchOn(e: Env, c: Config, c': Config, c'': Config)
    requires Stretch(e, c, c') && Stretch(e, c', c'')
    ensures Stretch(e, c, c'')
  {
    var k: nat :| Turns(e, c, k, c');
    var l: nat :| Turns(e, c', l, c'');
    TurnsOn(e, c, k, c', l, c'');
  }

  /** A stretch, then one more turn, then another stretch. */
  lemma StretchTurn(e: Env, c: Config, c1: Config, c2: Config)
    requires Stretch(e, c, c1) && Known(e, c1.s) && c1.stack != [] && Stretch(e, Visited(e, c1), c2)
    ensures Stretch(e, c, c2)
  {
    assert Turns(e, Visited(e, c1), 0, Visited(e, c1));
    assert Turns(e, c1, 1, Visited(e, c1));
    StretchOn(e, c1, Visited(e, c1), c2);
    StretchOn(e, c, c1, c2);
  }

  /** What every turn keeps, a stretch keeps. */
  lemma {:induction false} TurnsPreserve(e: Env, p: Config -> bool, c: Config, k: nat, c': Config)
    requires p(c) && Turns(e, c, k, c')
    requires forall c1 | p(c1) && Known(e, c1.s) && c1.stack != [] :: p(Visited(e, c1))
    ensures p(c')
    decreases k
  {
    if k > 0 { TurnsPreserve(e, p, Visited(e, c), k - 1, c'); }
  }

  /** What a run relies on: a ranked closed graph, whose nodes the definition lists once each, and entry nodes
      that are the nodes without dependencies, each once, as they are when the caller names none. */
  ghost predicate Sound(e: Env, rank: map<NodeId, nat>, entries: seq<NodeId>) {
    Proper(e.g, e.ids, rank, entries)
  }

  ghost predicate Proper(g: Dag, ids: seq<NodeId>, rank: map<NodeId, nat>, entries: seq<NodeId>) {
    && Closed(g) && IsRank(g, rank)
    && (forall n | n in g :: g[n].maxAttempts >= 1)
    && ListsOnce(ids, g.Keys)
    && ListsOnce(entries, Rootset(g))
  }

  function Rootset(g: Dag): set<NodeId> {
    set n | n in g && g[n].deps == {}
  }

  // ---- when a node can be scheduled twice ----

  /** `d` lies between `n` and its dependent `y`. */
  ghost predicate Between(g: Dag, n: NodeId, d: NodeId, y: NodeId) {
    DependsOn(g, y, d) && DependsOn(g, d, n)
  }

  /** A dependent `y` of `n` with other nodes in between, all of which may throw at once and are marked
      continueOnError, and the first of which come before `y` in the definition. When `n` ends, the loop over its
      dependents runs through all of them, and schedules `y` from within, before it turns to `y` itself. */
  ghost predicate Shortcut(g: Dag, ids: seq<NodeId>, throwers: set<NodeId>, n: NodeId, y: NodeId) {
    && y in g && n in g[y].deps
    && (exists d :: Between(g, n, d, y))
    && (forall d | Between(g, n, d, y) :: d in throwers && d in g && g[d].continueOnError)
    && (forall d | Between(g, n, d, y) && (forall x | x in g[d].deps :: !Between(g, n, x, y)) :: Precedes(ids, d, y))
  }

  ghost predicate NoShortcut(g: Dag, ids: seq<NodeId>, throwers: set<NodeId>) {
    forall n, y :: !Shortcut(g, ids, throwers, n, y)
  }

  /** Only these nodes can fail for good by throwing at once on their first attempt: a node with retries left
      backs off instead, unless the run was stopped. */
  ghost predicate OnlyThrow(e: Env, throwers: set<NodeId>, running: bool) {
    forall n | n in e.g && e.throws(n, 1) && (running ==> e.g[n].maxAttempts == 1) :: n in throwers
  }

  /** The run is not stopped. */
  ghost predicate GoesOn(events: seq<Event>) {
    forall i | 0 <= i < |events| :: events[i] != Async(Stop)
  }
}
