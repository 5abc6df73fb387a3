/** The agent scheduler as a state machine. One action is one synchronous stretch of code between two
    awaits. Suspended asynchronous calls are part of the state, so that scheduling a node twice, or
    holding a slot too long, is something the model can express. */
module SchedulerModel {
  import opened Graph

  datatype Status = Pending | Running | Completed | Failed | Skipped | Blocked

  /** - `waiting`: calls of scheduleNode made for a first attempt and suspended until a slot is free;
      - `inHandler`: calls of executeNode suspended in the node's handler;
      - `backoff`: calls of executeNode that failed and are suspended in the backoff or in the wait for a
        new slot, while still holding the old one;
      - `finishing`: calls of executeNode that are through but have not given their slot back yet. */
  datatype State = State(
    status: map<NodeId, Status>,
    attempts: map<NodeId, nat>,
    waiting: multiset<NodeId>,
    inHandler: multiset<NodeId>,
    backoff: multiset<NodeId>,
    finishing: nat,
    active: int,
    running: bool)

  /** Whether a node's handler succeeds on its k-th attempt, counting from 1. */
  type Oracle = (NodeId, nat) -> bool

  datatype Action =
    | Acquire(n: NodeId)    // a waiting call finds a slot and starts the handler
    | Resolve(n: NodeId)    // the handler succeeds
    | Reject(n: NodeId)     // the handler fails or times out
    | Reacquire(n: NodeId)  // a call in backoff finds a slot and starts the handler again
    | Release               // a call that is through gives its slot back
    | Stop                  // the caller stops the run

  predicate Terminal(st: Status) {
    st == Completed || st == Failed || st == Skipped || st == Blocked
  }

  /** A dependency that lets its dependents run. */
  predicate Satisfied(g: Dag, status: map<NodeId, Status>, d: NodeId) {
    d in g && d in status && (status[d] == Completed || (status[d] == Failed && g[d].continueOnError))
  }

  /** A dependency that keeps its dependents from ever running. */
  predicate Bad(g: Dag, status: map<NodeId, Status>, d: NodeId) {
    d in g && d in status && (status[d] == Blocked || (status[d] == Failed && !g[d].continueOnError))
  }

  predicate DepsSatisfied(g: Dag, status: map<NodeId, Status>, n: NodeId)
    requires n in g
  {
    forall d | d in g[n].deps :: Satisfied(g, status, d)
  }

  predicate CanExecute(g: Dag, status: map<NodeId, Status>, n: NodeId) {
    n in g && n in status && status[n] == Pending && DepsSatisfied(g, status, n)
  }

  /** The dependents of `n` that may run now. */
  function ReadyDependents(g: Dag, status: map<NodeId, Status>, n: NodeId): set<NodeId> {
    set d | d in g && n in g[d].deps && CanExecute(g, status, d)
  }

  /** A walk from `x` down to the failed node `n` on which every node but `n` is pending. */
  ghost predicate PendingPath(g: Dag, status: map<NodeId, Status>, p: seq<NodeId>, x: NodeId, n: NodeId) {
    PathFromTo(g, p, x, n) && forall i | 0 <= i < |p| - 1 :: p[i] in status && status[p[i]] == Pending
  }

  ghost predicate Blockable(g: Dag, status: map<NodeId, Status>, x: NodeId, n: NodeId) {
    exists p :: PendingPath(g, status, p, x, n)
  }

  /** Blocking spreads from a failed node along chains of pending dependents. */
  ghost function MarkBlocked(g: Dag, status: map<NodeId, Status>, n: NodeId): (r: map<NodeId, Status>)
    ensures r.Keys == status.Keys
  {
    map x | x in status :: if Blockable(g, status, x, n) then Blocked else status[x]
  }

  /** The state when a run starts: the entry nodes that may run are waiting for a slot. This is the entry loop for
      lists without repetitions; SchedulerEntries says what the loop does with any list. */
  ghost function Init(g: Dag, entries: seq<NodeId>): State {
    var status := map n | n in g :: Pending;
    State(status, map n | n in g :: 0, multiset(Executable(g, status, entries)), multiset{}, multiset{}, 0, 0, true)
  }

  function Executable(g: Dag, status: map<NodeId, Status>, ids: seq<NodeId>): seq<NodeId> {
    if ids == [] then []
    else (if CanExecute(g, status, ids[0]) then [ids[0]] else []) + Executable(g, status, ids[1..])
  }

  ghost predicate Enabled(g: Dag, limit: int, o: Oracle, s: State, a: Action) {
    match a
    case Acquire(n) => n in s.waiting && s.active < limit
    case Reacquire(n) => n in s.backoff && s.active < limit
    case Resolve(n) => n in s.inHandler && n in s.attempts && o(n, s.attempts[n])
    case Reject(n) => n in s.inHandler && n in s.attempts && !o(n, s.attempts[n])
    case Release => s.finishing > 0
    case Stop => true
  }

  /** Start the handler for the next attempt. */
  function Begin(s: State, n: NodeId): State
    requires n in s.attempts
  {
    s.(status := s.status[n := Running], attempts := s.attempts[n := s.attempts[n] + 1],
       inHandler := s.inHandler + multiset{n}, active := s.active + 1)
  }

  /** Leave the handler with the given final status and schedule the dependents that may run now. */
  function Finish(g: Dag, s: State, n: NodeId, final: Status): State {
    var status := s.status[n := final];
    s.(status := status, inHandler := s.inHandler - multiset{n}, finishing := s.finishing + 1,
       waiting := s.waiting + multiset(ReadyDependents(g, status, n)))
  }

  ghost function FinishBlocking(g: Dag, s: State, n: NodeId): State {
    s.(status := MarkBlocked(g, s.status[n := Failed], n), inHandler := s.inHandler - multiset{n},
       finishing := s.finishing + 1)
  }

  ghost function Apply(g: Dag, s: State, a: Action): State {
    match a
    case Acquire(n) =>
      if n in s.attempts then Begin(s.(waiting := s.waiting - multiset{n}), n) else s
    case Reacquire(n) =>
      if n in s.attempts then
        Begin(s.(backoff := s.backoff - multiset{n}, finishing := s.finishing + 1), n)
      else s
    case Resolve(n) => Finish(g, s, n, Completed)
    case Reject(n) =>
      if n !in g || n !in s.attempts then s
      else if s.running && s.attempts[n] < g[n].maxAttempts then
        s.(status := s.status[n := Pending], inHandler := s.inHandler - multiset{n},
           backoff := s.backoff + multiset{n})
      else if g[n].continueOnError then Finish(g, s, n, Failed)
      else FinishBlocking(g, s, n)
    case Release => if s.finishing > 0 then s.(finishing := s.finishing - 1, active := s.active - 1) else s
    case Stop => s.(running := false)
  }

  ghost predicate Step(g: Dag, limit: int, o: Oracle, s: State, a: Action, s': State) {
    Enabled(g, limit, o, s, a) && s' == Apply(g, s, a)
  }

  /** A run: `states` has one more element than `actions`. */
  ghost predicate IsRun(g: Dag, limit: int, o: Oracle, entries: seq<NodeId>, actions: seq<Action>, states: seq<State>) {
    && |states| == |actions| + 1
    && states[0] == Init(g, entries)
    && forall i | 0 <= i < |actions| :: Step(g, limit, o, states[i], actions[i], states[i + 1])
  }

  function PendingSet(status: map<NodeId, Status>): set<NodeId> {
    set x | x in status && status[x] == Pending
  }

  ghost predicate AllDone(g: Dag, s: State) {
    forall n | n in g :: n in s.status && Terminal(s.status[n])
  }

  /** What a run relies on: dependencies exist, they are ranked, and every node without dependencies is
      listed exactly once among the entry nodes. Entries that have dependencies are harmless. */
  ghost predicate Runnable(g: Dag, rank: map<NodeId, nat>, entries: seq<NodeId>) {
    && Closed(g)
    && IsRank(g, rank)
    && (forall n | n in g :: g[n].maxAttempts >= 1)
    && (forall n | n in g && g[n].deps == {} :: multiset(entries)[n] == 1)
  }
}
