/** What becomes of a message on the in-memory bus: it stays in its queue, and in every new delivery pass, until one
    of four things happens. */
module MessageBusDelivery {
  import opened Common
  import opened MessageBus
  import opened MessageBusRuns

  ghost predicate Queued(s: Bus, a: AgentId, e: Envelope) {
    a in s.queues && e in s.queues[a]
  }

  /** The four ways out of a queue: its handler succeeds, its handler fails once more than retries are granted, it has
      expired when the bus cleans up, or its agent is unregistered. */
  ghost predicate TakenOut(c: Config, s: Bus, x: Action, a: AgentId, e: Envelope) {
    match x
    case Succeed(p, _) => p in s.passes && s.passes[p].current == Some(e.id)
    case Fail(p) =>
      p in s.passes && s.passes[p].current == Some(e.id) && e.id < |s.log| && s.log[e.id].failures == c.maxRetries
    case CleanUp(now) => e.expiresAt <= now
    case Unregister(b) => b == a
    case _ => false
  }

  lemma SpliceTakes(c: Config, s: Bus, p: PassId, id: EnvId, a: AgentId, e: Envelope)
    requires Inv(c, s) && p in s.passes && s.passes[p].current == Some(id) && Queued(s, a, e)
    ensures a in Drop(s, s.passes[p].agent, id)
    ensures e in Drop(s, s.passes[p].agent, id)[a] <==> e.id != id
  {
    assert PassOk(c, s, p) && QueueOk(c, s, a);
    assert LiveOk(c, s, a, e.id) && LiveOk(c, s, s.passes[p].agent, id);
    if a == s.passes[p].agent {
      RemovedKeeps(s.queues[a], id);
      if e in Removed(s.queues[a], id) { InQueue(Removed(s.queues[a], id), e); }
    }
  }

  lemma EnterKeepsQueued(c: Config, s: Bus, x: Action, a: AgentId, e: Envelope)
    requires Inv(c, s) && Enabled(c, s, x) && Queued(s, a, e) && x.Send?
    ensures Queued(Apply(c, s, x), a, e)
  {
    if x.a == a {
      assert QueueOk(c, s, a);
      SentIsQueued(c, s, x);
    }
  }

  /** A message that is sent is queued behind those of its priority, and nothing leaves the queue for it. */
  lemma SentIsQueued(c: Config, s: Bus, x: Action)
    requires Inv(c, s) && Enabled(c, s, x) && x.Send?
    ensures forall e :: Queued(Apply(c, s, x), x.a, e) <==>
      e == Envelope(|s.log|, x.priority, x.expiresAt) || Queued(s, x.a, e)
  {
    var e, q := Envelope(|s.log|, x.priority, x.expiresAt), s.queues[x.a];
    assert QueueOk(c, s, x.a);
    forall i | 0 <= i < |q| ensures q[i].id < e.id { assert q[i] in q && LiveOk(c, s, x.a, q[i].id); }
    InsertedKeeps(q, e);
  }

  /** A step takes an envelope out of its queue if and only if it is one of the four. */
  lemma QueuedUntilTakenOut(c: Config, s: Bus, x: Action, a: AgentId, e: Envelope)
    requires Inv(c, s) && Enabled(c, s, x) && Queued(s, a, e)
    ensures Queued(Apply(c, s, x), a, e) <==> !TakenOut(c, s, x, a, e)
  {
    match x
    case Send(_, _, _) => EnterKeepsQueued(c, s, x, a, e);
    case Succeed(p, _) => SpliceTakes(c, s, p, s.passes[p].current.value, a, e);
    case Fail(p) =>
      var id := s.passes[p].current.value;
      assert PassOk(c, s, p) && RecordOk(c, s, id);
      SpliceTakes(c, s, p, id, a, e);
    case CleanUp(now) =>
      assert QueueOk(c, s, a);
      UnexpiredKeeps(s.queues[a], now);
    case Unregister(_) =>
    case Register(_) =>
    case Start(_, _) =>
    case Invoke(_) =>
    case Skip(_) =>
    case Finish(_) =>
    case Unlock(_) =>
  }

  /** Over any stretch of any run, an envelope that is no longer queued was taken out at some step in between. */
  lemma {:induction false} NeverJustLost(c: Config, actions: seq<Action>, states: seq<Bus>, j: nat, k: nat, a: AgentId,
                                        e: Envelope)
    returns (m: nat)
    requires IsRun(c, actions, states) && j <= k <= |actions|
    requires Queued(states[j], a, e) && !Queued(states[k], a, e)
    ensures j <= m < k && Queued(states[m], a, e) && TakenOut(c, states[m], actions[m], a, e)
    decreases k - j
  {
    RunInv(c, actions, states, j);
    QueuedUntilTakenOut(c, states[j], actions[j], a, e);
    assert states[j + 1] == Apply(c, states[j], actions[j]);
    if TakenOut(c, states[j], actions[j], a, e) { m := j; } else {
      m := NeverJustLost(c, actions, states, j + 1, k, a, e);
    }
  }

  /** A pass that begins is to handle exactly the queued envelopes that have not expired. */
  lemma NewPassHasAll(c: Config, actions: seq<Action>, states: seq<Bus>, k: nat, a: AgentId, now: int, id: EnvId)
    requires IsRun(c, actions, states) && k < |actions| && actions[k] == Start(a, now)
    ensures states[k].nextPass in states[k + 1].passes
    ensures id in states[k + 1].passes[states[k].nextPass].todo <==>
      exists e: Envelope :: Queued(states[k], a, e) && e.id == id && e.expiresAt > now
  {
    RunInv(c, actions, states, k);
    var q := states[k].queues[a];
    assert QueueOk(c, states[k], a);
    UnexpiredKeeps(q, now);
    IdsOf(Unexpired(q, now), id);
    assert states[k + 1] == Apply(c, states[k], Start(a, now));
    if e: Envelope :| Queued(states[k], a, e) && e.id == id && e.expiresAt > now {
      assert e in Unexpired(q, now);
    }
  }

  lemma IdsOf(q: seq<Envelope>, id: EnvId)
    ensures id in Ids(q) <==> exists e :: e in q && e.id == id
  {
    if id in Ids(q) {
      var i :| 0 <= i < |q| && Ids(q)[i] == id;
      assert q[i] in q;
    }
    if e :| e in q && e.id == id {
      var i :| 0 <= i < |q| && q[i] == e;
      assert Ids(q)[i] == id;
    }
  }

  ghost predicate LeftAlone(actions: seq<Action>, j: nat, k: nat, a: AgentId, e: Envelope)
    requires j <= k <= |actions|
  {
    forall m | j <= m < k ::
      actions[m] != Unregister(a) && (actions[m].CleanUp? ==> actions[m].now < e.expiresAt)
  }

  /** An envelope that has not expired and whose agent stays is gone only after its handler has succeeded, or has
      failed on the first delivery and on every one of its `maxRetries` retries. */
  lemma TriedUntilTheEnd(c: Config, actions: seq<Action>, states: seq<Bus>, j: nat, k: nat, a: AgentId, e: Envelope)
    requires IsRun(c, actions, states) && j <= k <= |actions| && LeftAlone(actions, j, k, a, e)
    requires Queued(states[j], a, e) && !Queued(states[k], a, e)
    ensures e.id < |states[k].log|
    ensures states[k].log[e.id].successes == 1 || states[k].log[e.id].failures == c.maxRetries + 1
  {
    var m := NeverJustLost(c, actions, states, j, k, a, e);
    RunInv(c, actions, states, m);
    assert QueueOk(c, states[m], a) && LiveOk(c, states[m], a, e.id);
    assert states[m + 1] == Apply(c, states[m], actions[m]);
    RecordGrows(c, actions, states, m + 1, k, e.id);
    RunInv(c, actions, states, k);
    assert RecordOk(c, states[k], e.id);
  }

  /** What handlers have done is never forgotten. */
  lemma {:induction false} RecordGrows(c: Config, actions: seq<Action>, states: seq<Bus>, j: nat, k: nat, id: EnvId)
    requires IsRun(c, actions, states) && j <= k <= |actions| && id < |states[j].log|
    ensures id < |states[k].log| && states[k].log[id].successes >= states[j].log[id].successes
    ensures states[k].log[id].failures >= states[j].log[id].failures
    decreases k - j
  {
    if j < k {
      assert states[j + 1] == Apply(c, states[j], actions[j]);
      RecordGrows(c, actions, states, j + 1, k, id);
    }
  }
}
