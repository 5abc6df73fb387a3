/** Request and response over publish/subscribe, between any number of bus instances. The network may
    lose, repeat, delay and reorder messages; agents and handlers come and go. */
module RedisBus {
  import opened Common

  type InstId = string
  type AgentId = string
  type CorrId = string
  type Value = string

  datatype Kind = Request | Response | Notification | Broadcast | Error

  datatype Message = Message(kind: Kind, from: AgentId, to: Option<AgentId>, corr: Option<CorrId>, body: Value)

  datatype Channel = AgentChannel(agent: AgentId) | BroadcastChannel | ResponseChannel(inst: InstId)

  datatype Packet = Packet(channel: Channel, msg: Message, source: InstId)

  datatype Settlement = Fulfilled(v: Value) | Rejected

  // ---- one instance ----

  datatype Inst = Inst(localAgents: set<AgentId>, handlers: map<AgentId, set<Kind>>, pending: set<CorrId>, closed: bool)

  predicate HasHandler(i: Inst, a: AgentId, k: Kind) {
    a in i.handlers && k in i.handlers[a]
  }

  /** What an incoming message does: settle a pending request, or start handlers of local agents. */
  datatype Effect = Effect(settles: Option<(CorrId, Settlement)>, starts: set<AgentId>)

  /** An empty recipient counts as none. */
  predicate HasRecipient(m: Message) {
    m.to.Some? && m.to.value != ""
  }

  /** An empty correlation id counts as none. */
  predicate Correlated(m: Message) {
    m.corr.Some? && m.corr.value != ""
  }

  function Targets(i: Inst, m: Message): set<AgentId> {
    if HasRecipient(m) && m.to.value in i.localAgents then {m.to.value}
    else if m.kind == Broadcast then set a | a in i.localAgents && a != m.from
    else {}
  }

  function Incoming(i: Inst, m: Message): Effect {
    if m.kind == Response || m.kind == Error then
      if Correlated(m) && m.corr.value in i.pending then
        Effect(Some((m.corr.value, if m.kind == Error then Rejected else Fulfilled(m.body))), {})
      else Effect(None, {})
    else Effect(None, set a | a in Targets(i, m) && HasHandler(i, a, m.kind))
  }

  function AfterIncoming(i: Inst, m: Message): Inst {
    var e := Incoming(i, m);
    if e.settles.Some? then i.(pending := i.pending - {e.settles.value.0}) else i
  }

  /** A request is opened here. */
  function AfterAsk(i: Inst, corr: CorrId): Inst {
    i.(pending := i.pending + {corr})
  }

  /** The instance shuts down. */
  function AfterClose(i: Inst): Inst {
    i.(pending := {}, closed := true)
  }

  /** Some message would settle the request. */
  ghost predicate CanSettle(i: Inst, c: CorrId) {
    exists m :: SettledBy(i, m, c)
  }

  ghost predicate SettledBy(i: Inst, m: Message, c: CorrId) {
    Incoming(i, m).settles.Some? && Incoming(i, m).settles.value.0 == c
  }

  /** What can be settled is what is pending. */
  lemma PendingCanSettle(i: Inst, c: CorrId)
    requires "" !in i.pending
    ensures CanSettle(i, c) <==> c in i.pending
  {
    if c in i.pending { assert SettledBy(i, Message(Response, "", None, Some(c), ""), c); }
  }

  /** The part of an instance that changes in place. */
  class Bus {
    var localAgents: set<AgentId>
    var handlers: map<AgentId, set<Kind>>
    var pendingRequests: set<CorrId>
    var closed: bool

    function View(): Inst
      reads this
    {
      Inst(localAgents, handlers, pendingRequests, closed)
    }

    ghost predicate Valid()
      reads this
    {
      "" !in pendingRequests
    }

    /** Settle the request a response belongs to, or start the handlers the message is for: that of the local agent it
        is addressed to, or for a broadcast that is addressed to none those of all local agents but the sender. */
    method HandleIncoming(m: Message) returns (effect: Effect)
      modifies `pendingRequests
      ensures effect == Incoming(old(View()), m) && View() == AfterIncoming(old(View()), m)
      ensures old(Valid()) ==> Valid()
      ensures forall a :: a in effect.starts <==>
        && m.kind != Response && m.kind != Error
        && a in localAgents && a in handlers && m.kind in handlers[a]
        && ((m.to == Some(a) && a != "")
          || (m.kind == Broadcast && a != m.from
            && (m.to == None || m.to.value == "" || m.to.value !in localAgents)))
      ensures forall c, r :: effect.settles == Some((c, r)) <==>
        && m.corr == Some(c) && c != "" && c in old(pendingRequests)
        && ((m.kind == Response && r == Fulfilled(m.body)) || (m.kind == Error && r == Rejected))
    {
      if m.kind == Response || m.kind == Error {
        if m.corr.Some? && m.corr.value != "" && m.corr.value in pendingRequests {
          pendingRequests := pendingRequests - {m.corr.value};
          return Effect(Some((m.corr.value, if m.kind == Error then Rejected else Fulfilled(m.body))), {});
        }
        return Effect(None, {});
      }
      var starts: set<AgentId> := {};
      if m.to.Some? && m.to.value != "" && m.to.value in localAgents {
        if m.to.value in handlers && m.kind in handlers[m.to.value] { starts := {m.to.value}; }
      } else if m.kind == Broadcast {
        var todo := localAgents;
        while todo != {}
          invariant todo <= localAgents
          invariant starts == set a | a in localAgents - todo && a != m.from && HasHandler(View(), a, m.kind)
        {
          var agentId :| agentId in todo;
          todo := todo - {agentId};
          if agentId != m.from && agentId in handlers && m.kind in handlers[agentId] {
            starts := starts + {agentId};
          }
        }
      }
      return Effect(None, starts);
    }

    /** Register the promise of a request before anything is sent. From then on a response to it settles it, and
        nothing else is treated differently. */
    method OpenRequest(corr: CorrId)
      requires Valid() && corr != ""
      modifies `pendingRequests
      ensures Valid()
      ensures View() == AfterAsk(old(View()), corr)
      ensures forall m: Message | m.kind == Response && m.corr == Some(corr) ::
        Incoming(View(), m).settles == Some((corr, Fulfilled(m.body)))
      ensures forall m: Message | m.corr != Some(corr) :: Incoming(View(), m) == Incoming(old(View()), m)
      ensures forall s: System, i, from, to, body | i in s.insts && s.insts[i] == old(View()) && Fresh(s, corr) ::
        Apply(s, Ask(i, from, to, corr, body)).insts[i] == View()
    {
      pendingRequests := pendingRequests + {corr};
    }

    /** Close the bus. The result lists the requests whose promises are rejected: exactly those that some message
        could still have settled. No message settles anything any more. */
    method Shutdown() returns (rejected: set<CorrId>)
      requires Valid()
      modifies `pendingRequests, `closed
      ensures Valid() && View() == AfterClose(old(View()))
      ensures forall c :: c in rejected <==> CanSettle(old(View()), c)
      ensures forall m: Message :: Incoming(View(), m).settles == None
      ensures forall s: System, i, c | i in s.insts && s.insts[i] == old(View()) ::
        CloseRejects(s, i, c, View(), rejected)
    {
      forall c ensures CanSettle(View(), c) <==> c in pendingRequests { PendingCanSettle(View(), c); }
      closed := true;
      rejected := pendingRequests;
      pendingRequests := {};
      forall s: System, i, c | i in s.insts && s.insts[i] == old(View())
        ensures CloseRejects(s, i, c, View(), rejected)
      {
        CloseRejectsPending(s, i, c);
      }
    }
  }

  /** Closing instance `i` leaves it as `after`, rejects the given requests there, and settles no other. */
  ghost predicate CloseRejects(s: System, i: InstId, c: CorrId, after: Inst, rejected: set<CorrId>)
    requires i in s.insts
  {
    var t := Apply(s, Close(i));
    && i in t.insts && t.insts[i] == after
    && (c in rejected ==> c in t.settled && t.settled[c] == SettledSoFar(s, c) + [(i, Rejected)])
    && (c !in rejected ==> SettledSoFar(t, c) == SettledSoFar(s, c))
  }

  lemma CloseRejectsPending(s: System, i: InstId, c: CorrId)
    requires i in s.insts
    ensures CloseRejects(s, i, c, AfterClose(s.insts[i]), s.insts[i].pending)
  {}

  // ---- all instances and the network ----

  /** A handler at work on a message. */
  datatype Call = Call(at: InstId, agent: AgentId, msg: Message, source: InstId)

  /** `net` holds everything ever published: losing a message is never delivering it. `issued`, `foreign` (the
      correlation ids that users gave their own requests), `settled` and `returned` are the history the safety
      statement speaks about. */
  datatype System = System(
    insts: map<InstId, Inst>,
    outbox: set<(InstId, Message)>,
    net: set<Packet>,
    calls: set<Call>,
    issued: map<CorrId, (InstId, Message)>,
    foreign: set<CorrId>,
    settled: map<CorrId, seq<(InstId, Settlement)>>,
    returned: set<(Message, Value)>)

  datatype Action =
    | Configure(i: InstId, agents: set<AgentId>, handlers: map<AgentId, set<Kind>>)
    | Ask(i: InstId, from: AgentId, to: AgentId, corr: CorrId, body: Value)
    | Send(i: InstId, msg: Message)
    | Dispatch(i: InstId, msg: Message)
    | Deliver(i: InstId, packet: Packet)
    | Return(call: Call, v: Value, answered: bool, failed: bool)
    | Throw(call: Call)
    | Timeout(i: InstId, corr: CorrId)
    | Close(i: InstId)

  function RequestMessage(from: AgentId, to: AgentId, corr: CorrId, body: Value): Message {
    Message(Request, from, Some(to), Some(corr), body)
  }

  function SettledSoFar(s: System, c: CorrId): seq<(InstId, Settlement)> {
    if c in s.settled then s.settled[c] else []
  }

  function Settle(s: System, i: InstId, c: CorrId, r: Settlement): System {
    s.(settled := s.settled[c := SettledSoFar(s, c) + [(i, r)]])
  }

  /** Responses and errors are made by the bus. A request may carry a correlation id of the user's own, which is none
      of those that `request` has issued. */
  predicate UserMessage(s: System, m: Message) {
    m.kind != Response && m.kind != Error && (Expects(m) ==> m.corr.value !in s.issued)
  }

  /** An id that `request` makes up is used by no request so far. */
  predicate Fresh(s: System, corr: CorrId) {
    corr != "" && corr !in s.issued && corr !in s.foreign
  }

  predicate Subscribed(i: InstId, inst: Inst, c: Channel) {
    match c
    case AgentChannel(a) => a in inst.localAgents
    case BroadcastChannel => true
    case ResponseChannel(j) => i == j
  }

  predicate Enabled(s: System, a: Action) {
    match a
    case Configure(i, _, _) => i in s.insts
    case Ask(i, _, _, corr, _) => i in s.insts && Fresh(s, corr)
    case Send(i, m) => i in s.insts && UserMessage(s, m)
    case Dispatch(i, m) => i in s.insts && (i, m) in s.outbox
    case Deliver(i, p) => i in s.insts && p in s.net && Subscribed(i, s.insts[i], p.channel)
    case Return(call, _, _, _) => call in s.calls
    case Throw(call) => call in s.calls
    case Timeout(i, corr) => i in s.insts && corr in s.insts[i].pending
    case Close(i) => i in s.insts
  }

  /** The body of an error response. */
  const FAILURE: Value := "Request processing failed"

  function ReplyTo(call: Call, kind: Kind, body: Value): Packet {
    Packet(ResponseChannel(call.source),
           Message(kind, if call.msg.to.Some? then call.msg.to.value else "", Some(call.msg.from), call.msg.corr, body),
           call.at)
  }

  predicate Expects(m: Message) { m.kind == Request && Correlated(m) }

  ghost function RejectAll(s: System, i: InstId, pending: set<CorrId>): System {
    s.(settled := map c | c in s.settled.Keys + pending ::
         if c in pending then SettledSoFar(s, c) + [(i, Rejected)] else s.settled[c])
  }

  ghost function Apply(s: System, a: Action): System
    requires Enabled(s, a)
  {
    match a
    case Configure(i, agents, handlers) =>
      s.(insts := s.insts[i := s.insts[i].(localAgents := agents, handlers := handlers)])
    case Ask(i, from, to, corr, body) =>
      var m := RequestMessage(from, to, corr, body);
      s.(insts := s.insts[i := AfterAsk(s.insts[i], corr)],
         issued := s.issued[corr := (i, m)], outbox := s.outbox + {(i, m)})
    case Send(i, m) =>
      s.(outbox := s.outbox + {(i, m)}, foreign := s.foreign + if Expects(m) then {m.corr.value} else {})
    case Dispatch(i, m) =>
      var t := s.(outbox := s.outbox - {(i, m)});
      if s.insts[i].closed then t
      else if m.kind == Broadcast then t.(net := t.net + {Packet(BroadcastChannel, m, i)})
      else if !HasRecipient(m) then t
      else if m.to.value in s.insts[i].localAgents then
        if HasHandler(s.insts[i], m.to.value, m.kind) then t.(calls := t.calls + {Call(i, m.to.value, m, i)}) else t
      else t.(net := t.net + {Packet(AgentChannel(m.to.value), m, i)})
    case Deliver(i, p) =>
      var e := Incoming(s.insts[i], p.msg);
      var t := s.(insts := s.insts[i := AfterIncoming(s.insts[i], p.msg)],
                  calls := s.calls + set x | x in e.starts :: Call(i, x, p.msg, p.source));
      if e.settles.Some? then Settle(t, i, e.settles.value.0, e.settles.value.1) else t
    case Return(call, v, answered, failed) =>
      var t := s.(calls := s.calls - {call}, returned := s.returned + {(call.msg, v)});
      var t1 := if answered && Expects(call.msg) then t.(net := t.net + {ReplyTo(call, Response, v)}) else t;
      if failed && Expects(call.msg) then t1.(net := t1.net + {ReplyTo(call, Error, FAILURE)}) else t1
    case Throw(call) =>
      var t := s.(calls := s.calls - {call});
      if Expects(call.msg) then t.(net := t.net + {ReplyTo(call, Error, FAILURE)}) else t
    case Timeout(i, corr) =>
      Settle(s.(insts := s.insts[i := s.insts[i].(pending := s.insts[i].pending - {corr})]), i, corr, Rejected)
    case Close(i) =>
      RejectAll(s.(insts := s.insts[i := AfterClose(s.insts[i])]), i, s.insts[i].pending)
  }

  ghost predicate Init(s: System) {
    && (forall i | i in s.insts :: s.insts[i].pending == {})
    && s.outbox == {} && s.net == {} && s.calls == {}
    && s.issued == map[] && s.foreign == {} && s.settled == map[] && s.returned == {}
  }

  ghost predicate IsRun(actions: seq<Action>, states: seq<System>) {
    && |states| == |actions| + 1 && Init(states[0])
    && forall k | 0 <= k < |actions| :: Enabled(states[k], actions[k]) && states[k + 1] == Apply(states[k], actions[k])
  }

  // ---- what every reachable system satisfies ----

  /** A request on its way carries its correlation id's own message and names the instance that asked, unless the id
      is a user's own. */
  ghost predicate TrueRequest(s: System, m: Message, source: InstId) {
    Expects(m) ==>
      m.corr.value in s.foreign || (m.corr.value in s.issued && s.issued[m.corr.value] == (source, m))
  }

  /** A response on its way goes to the instance that asked and carries what a handler returned, unless the id is a
      user's own. */
  ghost predicate TrueReply(s: System, p: Packet) {
    (p.msg.kind == Response || p.msg.kind == Error) && p.msg.corr.Some? ==>
      p.msg.corr.value in s.foreign || ReplyToIssued(s, p, p.msg.corr.value)
  }

  ghost predicate ReplyToIssued(s: System, p: Packet, c: CorrId) {
    && c in s.issued && p.channel == ResponseChannel(s.issued[c].0)
    && (p.msg.kind == Response ==> (s.issued[c].1, p.msg.body) in s.returned)
  }

  ghost predicate PendingInv(s: System, i: InstId, c: CorrId) {
    c in s.issued && s.issued[c].0 == i && c !in s.settled
  }

  ghost predicate SettledInv(s: System, c: CorrId)
    requires c in s.settled
  {
    && c in s.issued && |s.settled[c]| == 1
    && s.settled[c][0].0 == s.issued[c].0
    && (s.settled[c][0].1.Fulfilled? ==> (s.issued[c].1, s.settled[c][0].1.v) in s.returned)
  }

  ghost predicate Inv(s: System) {
    && s.foreign !! s.issued.Keys
    && (forall i, c | i in s.insts && c in s.insts[i].pending :: PendingInv(s, i, c))
    && (forall c | c in s.settled :: SettledInv(s, c))
    && (forall e | e in s.outbox :: TrueRequest(s, e.1, e.0))
    && (forall e | e in s.outbox :: e.1.kind != Response && e.1.kind != Error)
    && (forall p | p in s.net :: TrueRequest(s, p.msg, p.source) && TrueReply(s, p))
    && (forall call | call in s.calls :: TrueRequest(s, call.msg, call.source))
  }

  /** Settled requests were issued; pending ones were issued here and are not settled. */
  lemma IssuedFirst(s: System)
    requires Inv(s)
    ensures forall c | c in s.settled :: c in s.issued
    ensures forall i, c | i in s.insts && c in s.insts[i].pending ::
      c in s.issued && s.issued[c].0 == i && c !in s.settled
  {
    assert forall c | c in s.settled :: SettledInv(s, c);
    assert forall i, c | i in s.insts && c in s.insts[i].pending :: PendingInv(s, i, c);
  }

  lemma ConfigureKeeps(s: System, a: Action)
    requires Inv(s) && Enabled(s, a) && (a.Configure? || a.Send?)
    ensures Inv(Apply(s, a))
  {
    var t := Apply(s, a);
    forall c | c in t.settled ensures SettledInv(t, c) { assert SettledInv(s, c); }
    forall i, c | i in t.insts && c in t.insts[i].pending ensures PendingInv(t, i, c) { assert PendingInv(s, i, c); }
    forall p | p in t.net ensures TrueRequest(t, p.msg, p.source) && TrueReply(t, p) {
      assert TrueRequest(s, p.msg, p.source) && TrueReply(s, p);
    }
  }

  lemma DispatchKeeps(s: System, i: InstId, m: Message)
    requires Inv(s) && Enabled(s, Dispatch(i, m))
    ensures Inv(Apply(s, Dispatch(i, m)))
  {
    var t := Apply(s, Dispatch(i, m));
    assert (i, m) in s.outbox;
    assert TrueRequest(s, (i, m).1, (i, m).0);
    forall c | c in t.settled ensures SettledInv(t, c) { assert SettledInv(s, c); }
    forall j, c | j in t.insts && c in t.insts[j].pending ensures PendingInv(t, j, c) { assert PendingInv(s, j, c); }
    forall p | p in t.net ensures TrueRequest(t, p.msg, p.source) && TrueReply(t, p) {
      if p in s.net { assert TrueRequest(s, p.msg, p.source) && TrueReply(s, p); }
    }
  }

  lemma AskKeeps(s: System, a: Action)
    requires Inv(s) && Enabled(s, a) && a.Ask?
    ensures Inv(Apply(s, a))
  {
    var t := Apply(s, a);
    IssuedFirst(s);
    forall c | c in t.settled ensures SettledInv(t, c) { assert SettledInv(s, c); }
    forall i, c | i in t.insts && c in t.insts[i].pending ensures PendingInv(t, i, c) {
      if c != a.corr { assert PendingInv(s, i, c); }
    }
  }

  lemma DeliverKeeps(s: System, i: InstId, p: Packet)
    requires Inv(s) && Enabled(s, Deliver(i, p))
    ensures Inv(Apply(s, Deliver(i, p)))
  {
    var t := Apply(s, Deliver(i, p));
    var e := Incoming(s.insts[i], p.msg);
    assert TrueRequest(s, p.msg, p.source) && TrueReply(s, p);
    if e.settles.Some? { assert PendingInv(s, i, e.settles.value.0); }
    forall j, c | j in t.insts && c in t.insts[j].pending ensures PendingInv(t, j, c) {
      assert PendingInv(s, j, c);
    }
    forall c | c in t.settled ensures SettledInv(t, c) {
      if c in s.settled { assert SettledInv(s, c); }
    }
  }

  /** The two states differ only in calls, in packets and in what handlers have returned. */
  ghost predicate OnlyReplies(s: System, t: System) {
    && t.insts == s.insts && t.outbox == s.outbox && t.issued == s.issued && t.foreign == s.foreign
    && t.settled == s.settled && t.calls <= s.calls && s.net <= t.net && s.returned <= t.returned
  }

  lemma RepliesKeep(s: System, t: System)
    requires Inv(s) && OnlyReplies(s, t)
    requires forall p | p in t.net && p !in s.net :: !Expects(p.msg) && TrueReply(t, p)
    ensures Inv(t)
  {
    forall c | c in t.settled ensures SettledInv(t, c) { assert SettledInv(s, c); }
    forall i, c | i in t.insts && c in t.insts[i].pending ensures PendingInv(t, i, c) { assert PendingInv(s, i, c); }
    forall p | p in t.net ensures TrueRequest(t, p.msg, p.source) && TrueReply(t, p) {
      if p in s.net { assert TrueRequest(s, p.msg, p.source) && TrueReply(s, p); }
    }
    forall call | call in t.calls ensures TrueRequest(t, call.msg, call.source) {
      assert TrueRequest(s, call.msg, call.source);
    }
  }

  lemma ReturnKeeps(s: System, call: Call, v: Value, answered: bool, failed: bool)
    requires Inv(s) && Enabled(s, Return(call, v, answered, failed))
    ensures Inv(Apply(s, Return(call, v, answered, failed)))
  {
    var t := Apply(s, Return(call, v, answered, failed));
    assert TrueRequest(s, call.msg, call.source);
    forall p | p in t.net && p !in s.net ensures !Expects(p.msg) && TrueReply(t, p) { ReplyIsTrue(t, call, p); }
    RepliesKeep(s, t);
  }

  lemma ThrowKeeps(s: System, call: Call)
    requires Inv(s) && Enabled(s, Throw(call))
    ensures Inv(Apply(s, Throw(call)))
  {
    var t := Apply(s, Throw(call));
    assert TrueRequest(s, call.msg, call.source);
    forall p | p in t.net && p !in s.net ensures !Expects(p.msg) && TrueReply(t, p) { ReplyIsTrue(t, call, p); }
    RepliesKeep(s, t);
  }

  lemma ReplyIsTrue(t: System, call: Call, p: Packet)
    requires p == ReplyTo(call, p.msg.kind, p.msg.body) && Expects(call.msg) && TrueRequest(t, call.msg, call.source)
    requires p.msg.kind == Error || (p.msg.kind == Response && (call.msg, p.msg.body) in t.returned)
    ensures !Expects(p.msg) && TrueReply(t, p)
  {}

  lemma RejectKeeps(s: System, a: Action)
    requires Inv(s) && Enabled(s, a) && (a.Timeout? || a.Close?)
    ensures Inv(Apply(s, a))
  {
    var t := Apply(s, a);
    forall j, c | j in t.insts && c in t.insts[j].pending ensures PendingInv(t, j, c) {
      assert PendingInv(s, j, c);
    }
    forall c | c in t.settled ensures SettledInv(t, c) {
      if c in s.settled { assert SettledInv(s, c); }
      if c in s.insts[a.i].pending { assert PendingInv(s, a.i, c); }
    }
  }

  /** Every step of the protocol keeps the invariant. */
  lemma StepKeeps(s: System, a: Action)
    requires Inv(s) && Enabled(s, a)
    ensures Inv(Apply(s, a))
  {
    match a
    case Configure(_, _, _) => ConfigureKeeps(s, a);
    case Ask(_, _, _, _, _) => AskKeeps(s, a);
    case Send(_, _) => ConfigureKeeps(s, a);
    case Dispatch(i, m) => DispatchKeeps(s, i, m);
    case Deliver(i, p) => DeliverKeeps(s, i, p);
    case Return(call, v, answered, failed) => ReturnKeeps(s, call, v, answered, failed);
    case Throw(call) => ThrowKeeps(s, call);
    case Timeout(_, _) => RejectKeeps(s, a);
    case Close(_) => RejectKeeps(s, a);
  }

  lemma {:induction false} RunInv(actions: seq<Action>, states: seq<System>, k: nat)
    requires IsRun(actions, states) && k <= |actions|
    ensures Inv(states[k])
  {
    if k > 0 {
      RunInv(actions, states, k - 1);
      StepKeeps(states[k - 1], actions[k - 1]);
      assert states[(k - 1) + 1] == Apply(states[k - 1], actions[k - 1]);
    }
  }

  /** Request safety over every run: a request settles at most once, only at the instance that issued it,
      and a fulfilled value is one that a handler returned for that very request message. */
  lemma RequestSafety(actions: seq<Action>, states: seq<System>, k: nat, c: CorrId)
    requires IsRun(actions, states) && k <= |actions| && c in states[k].settled
    ensures var s := states[k];
      && c in s.issued
      && |s.settled[c]| == 1
      && s.settled[c][0].0 == s.issued[c].0
      && (s.settled[c][0].1.Fulfilled? ==> (s.issued[c].1, s.settled[c][0].1.v) in s.returned)
      && (forall i | i in s.insts :: c !in s.insts[i].pending)
  {
    RunInv(actions, states, k);
    var s := states[k];
    assert SettledInv(s, c);
    IssuedFirst(s);
  }

  /** A settlement is never taken back or changed, and the record of what was asked never changes. */
  lemma {:induction false} SettledForGood(actions: seq<Action>, states: seq<System>, j: nat, k: nat, c: CorrId)
    requires IsRun(actions, states) && j <= k <= |actions| && c in states[j].settled
    ensures c in states[k].settled && states[k].settled[c] == states[j].settled[c]
    ensures c in states[j].issued && c in states[k].issued && states[k].issued[c] == states[j].issued[c]
  {
    RunInv(actions, states, j);
    IssuedFirst(states[j]);
    if j < k {
      SettledForGood(actions, states, j, k - 1, c);
      RunInv(actions, states, k - 1);
      SettledStays(states[k - 1], actions[k - 1], c);
      assert states[(k - 1) + 1] == Apply(states[k - 1], actions[k - 1]);
    }
  }

  lemma SettledStays(s: System, a: Action, c: CorrId)
    requires Inv(s) && Enabled(s, a) && c in s.settled
    ensures c in s.issued
    ensures var t := Apply(s, a);
      c in t.settled && t.settled[c] == s.settled[c] && c in t.issued && t.issued[c] == s.issued[c]
  {
    IssuedFirst(s);
  }

  // ---- requests are answered ----

  /** The actions lead from one system to the other. */
  ghost predicate Leads(s: System, actions: seq<Action>, t: System)
    decreases |actions|
  {
    if actions == [] then t == s else Enabled(s, actions[0]) && Leads(Apply(s, actions[0]), actions[1..], t)
  }

  lemma LeadsFirst(s: System, a: Action, s1: System, rest: seq<Action>, t: System)
    requires Enabled(s, a) && s1 == Apply(s, a) && Leads(s1, rest, t)
    ensures Leads(s, [a] + rest, t)
  {
    assert ([a] + rest)[1..] == rest;
  }

  /** An agent with a handler for requests is reached from instance `i` at instance `j`. */
  ghost predicate Serves(s: System, i: InstId, j: InstId, to: AgentId) {
    && i in s.insts && j in s.insts && !s.insts[i].closed && to != ""
    && to in s.insts[j].localAgents && HasHandler(s.insts[j], to, Request)
    && (to in s.insts[i].localAgents ==> i == j)
  }

  /** What the asking instance makes of a handler that returns `v`, or throws. */
  function Outcome(v: Value, throws: bool): Settlement {
    if throws then Rejected else Fulfilled(v)
  }

  /** A request whose handler is at work is answered: the handler returns or throws, and the reply settles the
      request. */
  lemma AnswerArrives(s: System, i: InstId, c: CorrId, call: Call, v: Value, throws: bool)
    returns (actions: seq<Action>, t: System)
    requires i in s.insts && c != "" && c in s.insts[i].pending && c !in s.settled
    requires call in s.calls && call.source == i && call.msg.kind == Request && call.msg.corr == Some(c)
    ensures Leads(s, actions, t) && c in t.settled && t.settled[c] == [(i, Outcome(v, throws))]
  {
    var back := if throws then Throw(call) else Return(call, v, true, false);
    var s1 := Apply(s, back);
    var p := if throws then ReplyTo(call, Error, FAILURE) else ReplyTo(call, Response, v);
    assert p in s1.net;
    var s2 := Apply(s1, Deliver(i, p));
    assert Incoming(s1.insts[i], p.msg).settles == Some((c, Outcome(v, throws)));
    t := s2;
    assert Leads(s2, [], t);
    LeadsFirst(s1, Deliver(i, p), s2, [], t);
    LeadsFirst(s, back, s1, [Deliver(i, p)] + [], t);
    actions := [back] + ([Deliver(i, p)] + []);
  }

  /** The request on its way: handed to a local agent, or published and delivered where the agent is. */
  lemma RequestArrives(s: System, i: InstId, j: InstId, from: AgentId, to: AgentId, c: CorrId, body: Value)
    returns (actions: seq<Action>, t: System, call: Call)
    requires Serves(s, i, j, to) && (i, RequestMessage(from, to, c, body)) in s.outbox
    ensures Leads(s, actions, t) && t.insts == s.insts && t.settled == s.settled
    ensures call in t.calls && call.source == i && call.msg == RequestMessage(from, to, c, body)
  {
    var m := RequestMessage(from, to, c, body);
    var s1 := Apply(s, Dispatch(i, m));
    if i == j {
      call, t := Call(i, to, m, i), s1;
      assert Leads(s1, [], t);
      LeadsFirst(s, Dispatch(i, m), s1, [], t);
      actions := [Dispatch(i, m)] + [];
    } else {
      var p := Packet(AgentChannel(to), m, i);
      t := Apply(s1, Deliver(j, p));
      call := Call(j, to, m, i);
      assert to in Incoming(s1.insts[j], m).starts;
      assert t.insts == s1.insts;
      assert Leads(t, [], t);
      LeadsFirst(s1, Deliver(j, p), t, [], t);
      LeadsFirst(s, Dispatch(i, m), s1, [Deliver(j, p)] + [], t);
      actions := [Dispatch(i, m)] + ([Deliver(j, p)] + []);
    }
  }

  /** At any point of any run, a new request to an agent that is registered with a handler somewhere can still be
      settled, at the instance that asks, with whatever the handler returns, or rejected if it throws. */
  lemma RequestCanBeAnswered(s: System, i: InstId, j: InstId, from: AgentId, to: AgentId, c: CorrId, body: Value,
                             v: Value, throws: bool, before: seq<Action>, states: seq<System>)
    returns (actions: seq<Action>, t: System)
    requires IsRun(before, states) && s == states[|before|] && Serves(s, i, j, to) && Fresh(s, c)
    ensures Leads(s, [Ask(i, from, to, c, body)] + actions, t)
    ensures c in t.settled && t.settled[c] == [(i, if throws then Rejected else Fulfilled(v))]
  {
    RunInv(before, states, |before|);
    IssuedFirst(s);
    var s1 := Apply(s, Ask(i, from, to, c, body));
    assert Serves(s1, i, j, to);
    var there, s2, call := RequestArrives(s1, i, j, from, to, c, body);
    var back, s3 := AnswerArrives(s2, i, c, call, v, throws);
    LeadsBoth(s1, there, s2, back, s3);
    LeadsFirst(s, Ask(i, from, to, c, body), s1, there + back, s3);
    actions, t := there + back, s3;
  }

  lemma {:induction false} LeadsBoth(s: System, a: seq<Action>, s1: System, b: seq<Action>, t: System)
    requires Leads(s, a, s1) && Leads(s1, b, t)
    ensures Leads(s, a + b, t)
    decreases |a|
  {
    if a == [] {
      assert a + b == b;
    } else {
      LeadsBoth(Apply(s, a[0]), a[1..], s1, b, t);
      assert (a + b)[1..] == a[1..] + b;
    }
  }
}
