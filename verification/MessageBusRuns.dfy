/** Runs of the in-memory message bus: sends, delivery passes, handler outcomes and clean-ups interleaved
    in any way. */
module MessageBusRuns {
  import opened Common
  import opened MessageBus

  /** A delivery pass: the envelopes it still has to look at, and the one whose handler is at work. */
  datatype Pass = Pass(agent: AgentId, todo: seq<EnvId>, current: Option<EnvId>)

  /** `retries` is the counter in the envelope; `failures`, `successes` and `invoked` are the history of
      its handler. A lock names the pass it was taken for. */
  datatype Record = Record(owner: AgentId, retries: nat, failures: nat, successes: nat, invoked: nat)

  datatype Bus = Bus(
    queues: map<AgentId, seq<Envelope>>,
    passes: map<PassId, Pass>,
    locks: map<AgentId, PassId>,
    nextPass: PassId,
    log: seq<Record>)  // indexed by envelope id

  datatype Config = Config(maxQueueSize: nat, maxRetries: nat)

  datatype Action =
    | Register(a: AgentId) | Unregister(a: AgentId)
    | Send(a: AgentId, priority: int, expiresAt: int)
    | Start(a: AgentId, now: int)      // no lock is held: filter the queue and take the lock
    | Invoke(p: PassId)                // call the handler of the next envelope
    | Skip(p: PassId)                  // no handler for the next envelope's type
    | Succeed(p: PassId, replyFails: bool)
    | Fail(p: PassId)
    | Finish(p: PassId)                // the pass is over
    | Unlock(a: AgentId)               // the lock is released after its pass
    | CleanUp(now: int)

  function Ids(q: seq<Envelope>): (r: seq<EnvId>)
    ensures |r| == |q| && forall i | 0 <= i < |q| :: r[i] == q[i].id
  {
    seq(|q|, i requires 0 <= i < |q| => q[i].id)
  }

  predicate Enabled(c: Config, s: Bus, x: Action) {
    match x
    case Register(a) => a !in s.queues
    case Unregister(a) => a in s.queues
    case Send(a, _, _) => a in s.queues && |s.queues[a]| < c.maxQueueSize
    case Start(a, _) => a !in s.locks && a in s.queues && s.queues[a] != []
    case Invoke(p) => p in s.passes && s.passes[p].current == None && s.passes[p].todo != []
    case Skip(p) => p in s.passes && s.passes[p].current == None && s.passes[p].todo != []
    case Succeed(p, _) => p in s.passes && s.passes[p].current.Some? && s.passes[p].current.value < |s.log|
    case Fail(p) => p in s.passes && s.passes[p].current.Some? && s.passes[p].current.value < |s.log|
    case Finish(p) => p in s.passes && s.passes[p].current == None && s.passes[p].todo == []
    case Unlock(a) => a in s.locks && s.locks[a] !in s.passes
    case CleanUp(_) => true
  }

  function Drop(s: Bus, a: AgentId, id: EnvId): map<AgentId, seq<Envelope>> {
    if a in s.queues then s.queues[a := Removed(s.queues[a], id)] else s.queues
  }

  function Apply(c: Config, s: Bus, x: Action): Bus
    requires Enabled(c, s, x)
  {
    match x
    case Register(a) => s.(queues := s.queues[a := []])
    case Unregister(a) => s.(queues := s.queues - {a})
    case Send(a, priority, expiresAt) =>
      var e := Envelope(|s.log|, priority, expiresAt);
      s.(queues := s.queues[a := Inserted(s.queues[a], e)], log := s.log + [Record(a, 0, 0, 0, 0)])
    case Start(a, now) =>
      s.(passes := s.passes[s.nextPass := Pass(a, Ids(Unexpired(s.queues[a], now)), None)],
         locks := s.locks[a := s.nextPass], nextPass := s.nextPass + 1)
    case Invoke(p) =>
      var pass := s.passes[p];
      var id := pass.todo[0];
      s.(passes := s.passes[p := Pass(pass.agent, pass.todo[1..], Some(id))],
         log := if id < |s.log| then s.log[id := s.log[id].(invoked := s.log[id].invoked + 1)] else s.log)
    case Skip(p) =>
      s.(passes := s.passes[p := Pass(s.passes[p].agent, s.passes[p].todo[1..], None)])
    case Succeed(p, replyFails) =>
      var pass := s.passes[p];
      var id := pass.current.value;
      var r := s.log[id];
      s.(passes := s.passes[p := Pass(pass.agent, pass.todo, None)], queues := Drop(s, pass.agent, id),
         log := s.log[id := r.(successes := r.successes + 1, retries := r.retries + if replyFails then 1 else 0)])
    case Fail(p) =>
      var pass := s.passes[p];
      var id := pass.current.value;
      var r := s.log[id];
      s.(passes := s.passes[p := Pass(pass.agent, pass.todo, None)],
         queues := if r.retries + 1 > c.maxRetries then Drop(s, pass.agent, id) else s.queues,
         log := s.log[id := r.(failures := r.failures + 1, retries := r.retries + 1)])
    case Finish(p) => s.(passes := s.passes - {p})
    case Unlock(a) => s.(locks := s.locks - {a})
    case CleanUp(now) => s.(queues := map a | a in s.queues :: Unexpired(s.queues[a], now))
  }

  ghost predicate Init(s: Bus) {
    s.queues == map[] && s.passes == map[] && s.locks == map[] && s.log == []
  }

  ghost predicate IsRun(c: Config, actions: seq<Action>, states: seq<Bus>) {
    && |states| == |actions| + 1 && Init(states[0])
    && forall k | 0 <= k < |actions| ::
         Enabled(c, states[k], actions[k]) && states[k + 1] == Apply(c, states[k], actions[k])
  }

  // ---- the invariant ----

  ghost predicate InHandler(s: Bus, id: EnvId) {
    exists p :: p in s.passes && s.passes[p].current == Some(id)
  }

  /** An envelope that may still be handed to its handler. */
  ghost predicate LiveOk(c: Config, s: Bus, a: AgentId, id: EnvId) {
    id < |s.log| && s.log[id].owner == a && s.log[id].successes == 0 && s.log[id].failures <= c.maxRetries
  }

  ghost predicate QueueOk(c: Config, s: Bus, a: AgentId)
    requires a in s.queues
  {
    var q := s.queues[a];
    Ordered(q) && |q| <= c.maxQueueSize && forall e | e in q :: LiveOk(c, s, a, e.id)
  }

  ghost predicate PassOk(c: Config, s: Bus, p: PassId)
    requires p in s.passes
  {
    var pass := s.passes[p];
    && p < s.nextPass
    && pass.agent in s.locks && s.locks[pass.agent] == p
    && (forall i, j | 0 <= i < j < |pass.todo| :: pass.todo[i] != pass.todo[j])
    && (forall id | id in pass.todo :: LiveOk(c, s, pass.agent, id))
    && (pass.current.Some? ==> pass.current.value !in pass.todo && LiveOk(c, s, pass.agent, pass.current.value))
  }

  ghost predicate RecordOk(c: Config, s: Bus, id: EnvId)
    requires id < |s.log|
  {
    var r := s.log[id];
    && r.invoked == r.failures + r.successes + (if InHandler(s, id) then 1 else 0)
    && r.successes <= 1 && r.failures + r.successes <= c.maxRetries + 1
    && (r.successes == 0 ==> r.retries == r.failures)
  }

  ghost predicate Inv(c: Config, s: Bus) {
    && (forall a | a in s.queues :: QueueOk(c, s, a))
    && (forall p | p in s.passes :: PassOk(c, s, p))
    && (forall a | a in s.locks :: s.locks[a] < s.nextPass)
    && (forall id: EnvId | id < |s.log| :: RecordOk(c, s, id))
  }

  /** What the invariant gives a reader: queues are ordered and bounded, an agent has at most one pass, and
      a handler succeeds at most once and is called at most maxRetries + 1 times for an envelope. */
  ghost predicate Safe(c: Config, s: Bus) {
    && (forall a | a in s.queues :: Ordered(s.queues[a]) && |s.queues[a]| <= c.maxQueueSize)
    && (forall p1, p2 | p1 in s.passes && p2 in s.passes && s.passes[p1].agent == s.passes[p2].agent :: p1 == p2)
    && (forall id: EnvId | id < |s.log| :: s.log[id].successes <= 1 && s.log[id].invoked <= c.maxRetries + 1)
  }

  lemma InvIsSafe(c: Config, s: Bus)
    requires Inv(c, s)
    ensures Safe(c, s)
  {
    forall p1, p2 | p1 in s.passes && p2 in s.passes && s.passes[p1].agent == s.passes[p2].agent ensures p1 == p2 {
      assert PassOk(c, s, p1) && PassOk(c, s, p2);
    }
    forall id: EnvId | id < |s.log| ensures s.log[id].successes <= 1 && s.log[id].invoked <= c.maxRetries + 1 {
      assert RecordOk(c, s, id);
      if InHandler(s, id) {
        var p :| p in s.passes && s.passes[p].current == Some(id);
        assert PassOk(c, s, p);
      }
    }
  }

  // ---- preservation ----

  /** Only the queues change, and each new queue is an ordered part of the old one. */
  lemma ShrinkKeeps(c: Config, s: Bus, t: Bus)
    requires Inv(c, s) && t == s.(queues := t.queues)
    requires forall a | a in t.queues :: Ordered(t.queues[a]) && |t.queues[a]| <= c.maxQueueSize
    requires forall a | a in t.queues :: t.queues[a] == [] || (a in s.queues && Within(t.queues[a], s.queues[a]))
    ensures Inv(c, t)
  {
    forall a | a in t.queues ensures QueueOk(c, t, a) {
      if a in s.queues { assert QueueOk(c, s, a); }
      forall e | e in t.queues[a] ensures LiveOk(c, t, a, e.id) { assert e in s.queues[a]; }
    }
    forall p | p in t.passes ensures PassOk(c, t, p) { assert PassOk(c, s, p); }
    forall id: EnvId | id < |t.log| ensures RecordOk(c, t, id) {
      assert RecordOk(c, s, id) && InHandler(t, id) == InHandler(s, id);
    }
  }

  lemma CleanUpKeeps(c: Config, s: Bus, now: int)
    requires Inv(c, s)
    ensures Inv(c, Apply(c, s, CleanUp(now)))
  {
    var t := Apply(c, s, CleanUp(now));
    forall a | a in t.queues
      ensures Ordered(t.queues[a]) && |t.queues[a]| <= c.maxQueueSize && Within(t.queues[a], s.queues[a])
    {
      assert QueueOk(c, s, a);
      UnexpiredKeeps(s.queues[a], now);
    }
    ShrinkKeeps(c, s, t);
  }

  lemma RegisterKeeps(c: Config, s: Bus, x: Action)
    requires Inv(c, s) && Enabled(c, s, x) && (x.Register? || x.Unregister?)
    ensures Inv(c, Apply(c, s, x))
  {
    var t := Apply(c, s, x);
    forall a | a in t.queues ensures Ordered(t.queues[a]) && |t.queues[a]| <= c.maxQueueSize {
      if a in s.queues { assert QueueOk(c, s, a); }
    }
    ShrinkKeeps(c, s, t);
  }

  lemma HandledIsLogged(c: Config, s: Bus, id: EnvId)
    requires Inv(c, s) && id >= |s.log|
    ensures !InHandler(s, id)
  {
    assert forall p | p in s.passes :: PassOk(c, s, p);
  }

  lemma SendKeeps(c: Config, s: Bus, a: AgentId, priority: int, expiresAt: int)
    requires Inv(c, s) && Enabled(c, s, Send(a, priority, expiresAt))
    ensures Inv(c, Apply(c, s, Send(a, priority, expiresAt)))
  {
    var t := Apply(c, s, Send(a, priority, expiresAt));
    var e := Envelope(|s.log|, priority, expiresAt);
    assert QueueOk(c, s, a);
    assert AllBelow(s.queues[a], e.id) by {
      forall i | 0 <= i < |s.queues[a]| ensures s.queues[a][i].id < e.id { assert s.queues[a][i] in s.queues[a]; }
    }
    InsertedKeeps(s.queues[a], e);
    forall b | b in t.queues ensures QueueOk(c, t, b) {
      assert QueueOk(c, s, b);
    }
    forall p | p in t.passes ensures PassOk(c, t, p) { assert PassOk(c, s, p); }
    forall id: EnvId | id < |t.log| ensures RecordOk(c, t, id) {
      assert InHandler(t, id) == InHandler(s, id);
      if id < |s.log| { assert RecordOk(c, s, id); } else { HandledIsLogged(c, s, id); }
    }
  }

  lemma StartKeeps(c: Config, s: Bus, a: AgentId, now: int)
    requires Inv(c, s) && Enabled(c, s, Start(a, now))
    ensures Inv(c, Apply(c, s, Start(a, now)))
  {
    var t := Apply(c, s, Start(a, now));
    var q := Unexpired(s.queues[a], now);
    assert QueueOk(c, s, a);
    UnexpiredKeeps(s.queues[a], now);
    forall b | b in t.queues ensures QueueOk(c, t, b) { assert QueueOk(c, s, b); }
    forall p | p in t.passes ensures PassOk(c, t, p) {
      if p == s.nextPass {
        forall i, j | 0 <= i < j < |q| ensures Ids(q)[i] != Ids(q)[j] { assert Before(q[i], q[j]); }
        forall i | 0 <= i < |q| ensures LiveOk(c, t, a, Ids(q)[i]) { assert q[i] in q && q[i] in s.queues[a]; }
      } else {
        assert PassOk(c, s, p);
      }
    }
    forall id: EnvId | id < |t.log| ensures RecordOk(c, t, id) {
      assert RecordOk(c, s, id);
      SameHandlers(s, t, id);
    }
  }

  lemma SameHandlers(s: Bus, t: Bus, id: EnvId)
    requires forall p | p in s.passes :: p in t.passes && t.passes[p] == s.passes[p]
    requires forall p | p in t.passes :: p in s.passes || t.passes[p].current == None
    ensures InHandler(t, id) == InHandler(s, id)
  {
    if p :| p in s.passes && s.passes[p].current == Some(id) { assert t.passes[p].current == Some(id); }
  }

  ghost predicate Holds(pass: Pass, id: EnvId) {
    id in pass.todo || pass.current == Some(id)
  }

  /** An envelope is in the hands of at most one pass. */
  lemma OnlyPass(c: Config, s: Bus, p: PassId, id: EnvId)
    requires Inv(c, s) && p in s.passes && Holds(s.passes[p], id)
    ensures forall p2 | p2 in s.passes && Holds(s.passes[p2], id) :: p2 == p
  {
    assert PassOk(c, s, p);
    forall p2 | p2 in s.passes && Holds(s.passes[p2], id) ensures p2 == p { assert PassOk(c, s, p2); }
  }

  /** Moving one pass on changes nothing for the envelopes it does not touch. */
  lemma OtherHandlers(s: Bus, t: Bus, p: PassId, id: EnvId)
    requires p in s.passes && p in t.passes && t.passes == s.passes[p := t.passes[p]]
    requires s.passes[p].current != Some(id) && t.passes[p].current != Some(id)
    ensures InHandler(t, id) == InHandler(s, id)
  {
    if q :| q in s.passes && s.passes[q].current == Some(id) { assert t.passes[q].current == Some(id); }
    if q :| q in t.passes && t.passes[q].current == Some(id) { assert s.passes[q].current == Some(id); }
  }

  lemma SkipKeeps(c: Config, s: Bus, p: PassId)
    requires Inv(c, s) && Enabled(c, s, Skip(p))
    ensures Inv(c, Apply(c, s, Skip(p)))
  {
    var t := Apply(c, s, Skip(p));
    forall a | a in t.queues ensures QueueOk(c, t, a) { assert QueueOk(c, s, a); }
    forall q | q in t.passes ensures PassOk(c, t, q) {
      assert PassOk(c, s, q);
      assert forall id | id in t.passes[q].todo :: id in s.passes[q].todo;
    }
    forall id: EnvId | id < |t.log| ensures RecordOk(c, t, id) {
      assert RecordOk(c, s, id);
      OtherHandlers(s, t, p, id);
    }
  }

  lemma InvokeKeeps(c: Config, s: Bus, p: PassId)
    requires Inv(c, s) && Enabled(c, s, Invoke(p))
    ensures Inv(c, Apply(c, s, Invoke(p)))
  {
    var t := Apply(c, s, Invoke(p));
    var id := s.passes[p].todo[0];
    assert PassOk(c, s, p) && id in s.passes[p].todo;
    OnlyPass(c, s, p, id);
    forall a | a in t.queues ensures QueueOk(c, t, a) {
      assert QueueOk(c, s, a);
      assert forall x: EnvId | x < |s.log| :: LiveOk(c, s, a, x) ==> LiveOk(c, t, a, x);
    }
    forall q | q in t.passes ensures PassOk(c, t, q) {
      assert PassOk(c, s, q);
      assert forall x: EnvId | x < |s.log| :: LiveOk(c, s, t.passes[q].agent, x) ==> LiveOk(c, t, t.passes[q].agent, x);
    }
    forall x: EnvId | x < |t.log| ensures RecordOk(c, t, x) {
      assert RecordOk(c, s, x);
      if x == id {
        assert t.passes[p].current == Some(id);
      } else {
        OtherHandlers(s, t, p, x);
      }
    }
  }

  /** The common part of success and failure: the pass lets go of `id`, whose record becomes `r`. */
  ghost predicate LetsGo(c: Config, s: Bus, t: Bus, p: PassId, id: EnvId, r: Record)
    requires p in s.passes && id < |s.log|
  {
    && t.passes == s.passes[p := Pass(s.passes[p].agent, s.passes[p].todo, None)]
    && t.locks == s.locks && t.nextPass == s.nextPass && t.log == s.log[id := r]
    && r.owner == s.log[id].owner && r.invoked == s.log[id].invoked
    && r.failures + r.successes == s.log[id].failures + s.log[id].successes + 1
  }

  lemma LetsGoPasses(c: Config, s: Bus, t: Bus, p: PassId, id: EnvId, r: Record)
    requires Inv(c, s) && p in s.passes && s.passes[p].current == Some(id) && id < |s.log| && LetsGo(c, s, t, p, id, r)
    ensures forall q | q in t.passes :: PassOk(c, t, q)
  {
    OnlyPass(c, s, p, id);
    forall q | q in t.passes ensures PassOk(c, t, q) {
      assert PassOk(c, s, q);
      forall x | x in t.passes[q].todo ensures LiveOk(c, t, t.passes[q].agent, x) {
        assert Holds(s.passes[q], x) && LiveOk(c, s, s.passes[q].agent, x);
      }
    }
  }

  lemma LetsGoRecords(c: Config, s: Bus, t: Bus, p: PassId, id: EnvId, r: Record)
    requires Inv(c, s) && p in s.passes && s.passes[p].current == Some(id) && id < |s.log| && LetsGo(c, s, t, p, id, r)
    requires r.successes <= 1 && (r.successes == 0 ==> r.retries == r.failures)
    ensures forall x: EnvId | x < |t.log| :: RecordOk(c, t, x)
  {
    OnlyPass(c, s, p, id);
    assert PassOk(c, s, p);
    forall x: EnvId | x < |t.log| ensures RecordOk(c, t, x) {
      assert RecordOk(c, s, x);
      if x == id {
        assert InHandler(s, id);
        assert !InHandler(t, id);
      } else {
        OtherHandlers(s, t, p, x);
      }
    }
  }

  /** Queues after an envelope was dropped. */
  lemma DropQueues(c: Config, s: Bus, t: Bus, p: PassId, id: EnvId, r: Record)
    requires Inv(c, s) && p in s.passes && s.passes[p].current == Some(id) && id < |s.log| && LetsGo(c, s, t, p, id, r)
    requires t.queues == Drop(s, s.passes[p].agent, id)
    ensures forall a | a in t.queues :: QueueOk(c, t, a)
  {
    assert PassOk(c, s, p);
    forall a | a in t.queues ensures QueueOk(c, t, a) {
      assert QueueOk(c, s, a);
      if a == s.passes[p].agent { RemovedKeeps(s.queues[a], id); }
      forall e | e in t.queues[a] ensures LiveOk(c, t, a, e.id) {
        assert e in s.queues[a] && LiveOk(c, s, a, e.id);
        assert e.id != id by { InQueue(t.queues[a], e); }
      }
    }
  }

  /** Queues after a failure that leaves the envelope in place. */
  lemma StayQueues(c: Config, s: Bus, t: Bus, p: PassId, id: EnvId, r: Record)
    requires Inv(c, s) && p in s.passes && id < |s.log| && LetsGo(c, s, t, p, id, r)
    requires t.queues == s.queues && r.successes == 0 && r.failures <= c.maxRetries
    ensures forall a | a in t.queues :: QueueOk(c, t, a)
  {
    forall a | a in t.queues ensures QueueOk(c, t, a) {
      assert QueueOk(c, s, a);
      forall e | e in t.queues[a] ensures LiveOk(c, t, a, e.id) { assert LiveOk(c, s, a, e.id); }
    }
  }

  lemma InQueue(q: seq<Envelope>, e: Envelope)
    requires e in q
    ensures Has(q, e.id)
  {
    var i :| 0 <= i < |q| && q[i] == e;
  }

  lemma SucceedKeeps(c: Config, s: Bus, p: PassId, replyFails: bool)
    requires Inv(c, s) && Enabled(c, s, Succeed(p, replyFails))
    ensures Inv(c, Apply(c, s, Succeed(p, replyFails)))
  {
    var t := Apply(c, s, Succeed(p, replyFails));
    var id := s.passes[p].current.value;
    assert PassOk(c, s, p) && RecordOk(c, s, id);
    LetsGoPasses(c, s, t, p, id, t.log[id]);
    LetsGoRecords(c, s, t, p, id, t.log[id]);
    DropQueues(c, s, t, p, id, t.log[id]);
  }

  lemma FailKeeps(c: Config, s: Bus, p: PassId)
    requires Inv(c, s) && Enabled(c, s, Fail(p))
    ensures Inv(c, Apply(c, s, Fail(p)))
  {
    var t := Apply(c, s, Fail(p));
    var id := s.passes[p].current.value;
    assert PassOk(c, s, p) && RecordOk(c, s, id);
    LetsGoPasses(c, s, t, p, id, t.log[id]);
    LetsGoRecords(c, s, t, p, id, t.log[id]);
    if s.log[id].retries + 1 > c.maxRetries {
      DropQueues(c, s, t, p, id, t.log[id]);
    } else {
      StayQueues(c, s, t, p, id, t.log[id]);
    }
  }

  lemma EndKeeps(c: Config, s: Bus, x: Action)
    requires Inv(c, s) && Enabled(c, s, x) && (x.Finish? || x.Unlock?)
    ensures Inv(c, Apply(c, s, x))
  {
    var t := Apply(c, s, x);
    forall a | a in t.queues ensures QueueOk(c, t, a) { assert QueueOk(c, s, a); }
    forall q | q in t.passes ensures PassOk(c, t, q) { assert PassOk(c, s, q); }
    forall id: EnvId | id < |t.log| ensures RecordOk(c, t, id) {
      assert RecordOk(c, s, id);
      if q :| q in s.passes && s.passes[q].current == Some(id) { assert q in t.passes; }
    }
  }

  /** Every step of the bus keeps the invariant. */
  lemma StepKeeps(c: Config, s: Bus, x: Action)
    requires Inv(c, s) && Enabled(c, s, x)
    ensures Inv(c, Apply(c, s, x))
  {
    match x
    case Register(_) => RegisterKeeps(c, s, x);
    case Unregister(_) => RegisterKeeps(c, s, x);
    case Send(a, priority, expiresAt) => SendKeeps(c, s, a, priority, expiresAt);
    case Start(a, now) => StartKeeps(c, s, a, now);
    case Invoke(p) => InvokeKeeps(c, s, p);
    case Skip(p) => SkipKeeps(c, s, p);
    case Succeed(p, replyFails) => SucceedKeeps(c, s, p, replyFails);
    case Fail(p) => FailKeeps(c, s, p);
    case Finish(_) => EndKeeps(c, s, x);
    case Unlock(_) => EndKeeps(c, s, x);
    case CleanUp(now) => CleanUpKeeps(c, s, now);
  }

  lemma {:induction false} RunInv(c: Config, actions: seq<Action>, states: seq<Bus>, k: nat)
    requires IsRun(c, actions, states) && k <= |actions|
    ensures Inv(c, states[k])
  {
    if k > 0 {
      RunInv(c, actions, states, k - 1);
      StepKeeps(c, states[k - 1], actions[k - 1]);
      assert states[(k - 1) + 1] == Apply(c, states[k - 1], actions[k - 1]);
    }
  }

  /** At every point of every run, clean-ups interleaved, the bus is safe. */
  lemma BusSafety(c: Config, actions: seq<Action>, states: seq<Bus>, k: nat)
    requires IsRun(c, actions, states) && k <= |actions|
    ensures Safe(c, states[k])
  {
    RunInv(c, actions, states, k);
    InvIsSafe(c, states[k]);
  }
}
