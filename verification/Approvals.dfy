/** Approval requests as a state machine: how often they are decided, and what their promises say. */
module Approvals {
  import opened Common

  type Id = nat

  /** A tenant id; a missing or empty one is `NO_TENANT`. */
  type Tenant = nat
  const NO_TENANT: Tenant := 0

  datatype Status = Pending | Approved | Denied | Expired | Cancelled

  datatype Request = Request(tenant: Tenant, status: Status, expiresAt: Option<int>, resolvedAt: Option<int>)

  datatype Promise = Waiting | Fulfilled(value: bool) | Rejected

  /** The manager's maps, the promises it has handed out with their listeners and timers, and three records of
      the past: the statuses each request left PENDING for, the requests decided while they were being announced,
      and the ids in use. */
  datatype State = State(
    requests: map<Id, Request>,
    batches: map<Id, seq<Id>>,
    promises: map<Id, Promise>,
    listening: set<Id>,
    timers: set<Id>,
    exits: map<Id, seq<Status>>,
    early: set<Id>,
    issued: set<Id>)

  datatype Config = Config(autoDeny: bool, maxPending: nat, batching: bool)

  datatype Action =
    | Open(id: Id, tenant: Tenant, timeout: int, now: int, during: Option<Status>)
    | CreateBatch(batch: Id, ids: seq<Id>, tenant: Tenant)
    | Decide(id: Id, to: Status, now: int)
    | DecideBatch(batch: Id, to: Status, now: int)
    | TimeOut(id: Id, now: int)
    | CleanUp(ids: seq<Id>, now: int)

  const HOUR := 3600000

  predicate IsPending(requests: map<Id, Request>, id: Id) {
    id in requests && requests[id].status.Pending?
  }

  function Exits(s: State, id: Id): seq<Status> {
    if id in s.exits then s.exits[id] else []
  }

  predicate IsDecision(to: Status) {
    to.Approved? || to.Denied? || to.Cancelled?
  }

  // ---- the steps ----

  /** Settling a promise that is already settled does nothing. */
  function Settle(p: Promise, to: Promise): Promise {
    if p.Waiting? then to else p
  }

  function SettleAt(promises: map<Id, Promise>, id: Id, to: Promise): map<Id, Promise> {
    if id in promises then promises[id := Settle(promises[id], to)] else promises
  }

  /** An event about `id`: its listeners settle the promise and take themselves and the timer away. */
  function Emit(s: State, id: Id, to: Status): State {
    if id !in s.listening then s
    else s.(promises := SettleAt(s.promises, id, Fulfilled(to.Approved?)),
            listening := s.listening - {id}, timers := s.timers - {id})
  }

  /** A pending request gets the status `to`. */
  function Leave(s: State, id: Id, to: Status, now: int): State
    requires id in s.requests
  {
    s.(requests := s.requests[id := s.requests[id].(status := to, resolvedAt := Some(now))],
       exits := s.exits[id := Exits(s, id) + [to]])
  }

  function Decided(s: State, id: Id, to: Status, now: int): State {
    if IsPending(s.requests, id) then Emit(Leave(s, id, to, now), id, to) else s
  }

  function DecidedAll(s: State, ids: seq<Id>, to: Status, now: int): State {
    if ids == [] then s
    else Decided(DecidedAll(s, ids[..|ids| - 1], to, now), ids[|ids| - 1], to, now)
  }

  function PendingOf(requests: map<Id, Request>, tenant: Tenant): set<Id> {
    set id | id in requests && requests[id].status.Pending? && (tenant == NO_TENANT || requests[id].tenant == tenant)
  }

  /** `maxPendingPerTenant || 100` */
  function Limit(c: Config): nat {
    if c.maxPending == 0 then 100 else c.maxPending
  }

  predicate OverLimit(c: Config, s: State, tenant: Tenant) {
    tenant != NO_TENANT && |PendingOf(s.requests, tenant)| >= Limit(c)
  }

  /** A new request is put into the map and announced; `during` is a decision taken by a listener. */
  function Announced(s: State, id: Id, tenant: Tenant, timeout: int, now: int, during: Option<Status>): State {
    var added := s.(requests := s.requests[id := Request(tenant, Pending, Some(now + timeout), None)]);
    if during.Some? then Decided(added, id, during.value, now).(early := s.early + {id}) else added
  }

  /** Its promise starts to listen only after that, so a decision taken during the announcement is not heard. */
  function Listening(s: State, id: Id): State {
    s.(promises := s.promises[id := Waiting], listening := s.listening + {id}, timers := s.timers + {id},
       issued := s.issued + {id})
  }

  function Opened(s: State, id: Id, tenant: Tenant, timeout: int, now: int, during: Option<Status>): State {
    Listening(Announced(s, id, tenant, timeout, now, during), id)
  }

  function BatchRequests(requests: map<Id, Request>, ids: seq<Id>, tenant: Tenant): map<Id, Request> {
    map id | id in requests.Keys + (set i | i in ids) ::
      if id in ids then Request(tenant, Pending, None, None) else requests[id]
  }

  function TimedOut(c: Config, s: State, id: Id, now: int): State {
    var fired := s.(timers := s.timers - {id});
    if !IsPending(s.requests, id) then fired
    else if c.autoDeny then Decided(fired, id, Expired, now)
    else fired.(promises := SettleAt(fired.promises, id, Rejected))
  }

  predicate Overdue(r: Request, now: int) {
    r.status.Pending? && r.expiresAt.Some? && r.expiresAt.value < now
  }

  predicate Old(r: Request, now: int) {
    r.resolvedAt.Some? && now - r.resolvedAt.value > HOUR
  }

  function CleanedOne(c: Config, s: State, id: Id, now: int): State {
    if id !in s.requests then s
    else
      var marked := if Overdue(s.requests[id], now) && c.autoDeny then Decided(s, id, Expired, now) else s;
      if id in marked.requests && Old(marked.requests[id], now) then marked.(requests := marked.requests - {id})
      else marked
  }

  function Cleaned(c: Config, s: State, ids: seq<Id>, now: int): State {
    if ids == [] then s
    else CleanedOne(c, Cleaned(c, s, ids[..|ids| - 1], now), ids[|ids| - 1], now)
  }

  ghost predicate Enabled(s: State, a: Action) {
    match a
    case Open(id, _, _, _, during) => id !in s.issued && (during.Some? ==> IsDecision(during.value))
    case CreateBatch(_, ids, _) => forall i | i in ids :: i !in s.issued
    case Decide(_, to, _) => IsDecision(to)
    case DecideBatch(_, to, _) => IsDecision(to)
    case TimeOut(id, _) => id in s.timers
    case CleanUp(ids, _) => forall id :: id in ids <==> id in s.requests
  }

  function Apply(c: Config, s: State, a: Action): State {
    match a
    case Open(id, tenant, timeout, now, during) =>
      if OverLimit(c, s, tenant) then s.(promises := s.promises[id := Rejected], issued := s.issued + {id})
      else Opened(s, id, tenant, timeout, now, during)
    case CreateBatch(batch, ids, tenant) =>
      if !c.batching then s
      else s.(requests := BatchRequests(s.requests, ids, tenant), batches := s.batches[batch := ids],
              issued := s.issued + (set i | i in ids))
    case Decide(id, to, now) => Decided(s, id, to, now)
    case DecideBatch(batch, to, now) => if batch in s.batches then DecidedAll(s, s.batches[batch], to, now) else s
    case TimeOut(id, now) => TimedOut(c, s, id, now)
    case CleanUp(ids, now) => Cleaned(c, s, ids, now)
  }

  function Init(): State {
    State(map[], map[], map[], {}, {}, map[], {}, {})
  }

  ghost predicate Next(c: Config, s: State, t: State) {
    exists a :: Enabled(s, a) && t == Apply(c, s, a)
  }

  ghost predicate IsRun(c: Config, run: seq<State>) {
    && run != [] && run[0] == Init()
    && forall k | 0 < k < |run| :: Next(c, run[k - 1], run[k])
  }

  // ---- the invariant, one request at a time ----

  /** What holds of one id when unanswered requests are denied. */
  ghost predicate Ok(s: State, id: Id) {
    var left := Exits(s, id);
    && |left| <= 1 && (left != [] ==> !left[0].Pending?)
    && (id in s.requests ==>
      && s.requests[id].status == (if left == [] then Pending else left[0])
      && (s.requests[id].resolvedAt.None? <==> left == []))
    && (id in s.issued <==> id in s.promises || id in s.requests || left != [])
    && (id in s.issued && left == [] ==> id in s.requests || (id in s.promises && s.promises[id].Rejected?))
    && PromiseOk(s, id)
  }

  ghost predicate PromiseOk(s: State, id: Id) {
    var left := Exits(s, id);
    && (id in s.listening <==> id in s.promises && s.promises[id].Waiting?)
    && (id in s.timers ==> id in s.promises)
    && (id in s.early ==> id in s.promises && left != [])
    && (id in s.promises ==>
      && (s.promises[id].Waiting? <==> IsPending(s.requests, id) || id in s.early)
      && (s.promises[id].Fulfilled? ==> left != [] && s.promises[id].value == left[0].Approved?)
      && (s.promises[id].Rejected? ==> left == [] && id !in s.requests)
      && (IsPending(s.requests, id) ==> id in s.timers))
  }

  ghost predicate Inv(s: State) {
    forall id: Id {:trigger Ok(s, id)} :: Ok(s, id)
  }

  /** The two states agree on everything about `id`. */
  ghost predicate SameAt(s: State, t: State, id: Id) {
    && (id in s.requests <==> id in t.requests) && (id in s.requests ==> s.requests[id] == t.requests[id])
    && (id in s.promises <==> id in t.promises) && (id in s.promises ==> s.promises[id] == t.promises[id])
    && (id in s.listening <==> id in t.listening) && (id in s.timers <==> id in t.timers)
    && Exits(s, id) == Exits(t, id)
    && (id in s.early <==> id in t.early) && (id in s.issued <==> id in t.issued)
  }

  /** What every step keeps about an id: a settled promise, and the statuses it left for. */
  ghost predicate KeptAt(s: State, t: State, id: Id) {
    && (id in s.promises ==> id in t.promises && (s.promises[id].Waiting? || t.promises[id] == s.promises[id]))
    && Exits(s, id) <= Exits(t, id)
    && (id in s.issued ==> id in t.issued && (id in s.early <==> id in t.early))
    && (id in s.issued && id !in s.requests ==> id !in t.requests)
  }

  lemma DecidedElsewhere(s: State, id: Id, to: Status, now: int, other: Id)
    requires other != id
    ensures SameAt(s, Decided(s, id, to, now), other)
  {
    if IsPending(s.requests, id) {
      var l := Leave(s, id, to, now);
      assert Exits(l, other) == Exits(s, other);
      assert SameAt(s, l, other);
      EmitElsewhere(l, id, to, other);
    }
  }

  lemma EmitElsewhere(s: State, id: Id, to: Status, other: Id)
    requires other != id
    ensures SameAt(s, Emit(s, id, to), other)
  {}

  lemma DecidedHere(s: State, id: Id, to: Status, now: int)
    requires Ok(s, id) && !to.Pending?
    ensures Ok(Decided(s, id, to, now), id) && KeptAt(s, Decided(s, id, to, now), id)
  {}

  lemma DecidedKeeps(s: State, id: Id, to: Status, now: int, other: Id)
    requires Ok(s, other) && !to.Pending?
    ensures Ok(Decided(s, id, to, now), other) && KeptAt(s, Decided(s, id, to, now), other)
  {
    if other == id { DecidedHere(s, id, to, now); } else { DecidedElsewhere(s, id, to, now, other); }
  }

  lemma {:induction false} DecidedAllKeeps(s: State, ids: seq<Id>, to: Status, now: int, id: Id)
    requires Ok(s, id) && !to.Pending?
    ensures Ok(DecidedAll(s, ids, to, now), id) && KeptAt(s, DecidedAll(s, ids, to, now), id)
    decreases |ids|
  {
    if ids != [] {
      var n := |ids| - 1;
      DecidedAllKeeps(s, ids[..n], to, now, id);
      DecidedKeeps(DecidedAll(s, ids[..n], to, now), ids[n], to, now, id);
    }
  }

  lemma OpenedHere(s: State, id: Id, tenant: Tenant, timeout: int, now: int, during: Option<Status>)
    requires Ok(s, id) && id !in s.issued && (during.Some? ==> IsDecision(during.value))
    ensures var t := Opened(s, id, tenant, timeout, now, during); Ok(t, id) && KeptAt(s, t, id)
  {
    assert id !in s.requests && id !in s.promises && Exits(s, id) == [];
    var put := s.(requests := s.requests[id := Request(tenant, Pending, Some(now + timeout), None)]);
    if during.Some? {
      assert Exits(Decided(put, id, during.value, now), id) == [during.value];
    }
  }

  lemma OpenedKeeps(s: State, added: Id, tenant: Tenant, timeout: int, now: int, during: Option<Status>, id: Id)
    requires Ok(s, id) && Ok(s, added) && added !in s.issued && (during.Some? ==> IsDecision(during.value))
    ensures var t := Opened(s, added, tenant, timeout, now, during); Ok(t, id) && KeptAt(s, t, id)
  {
    if id == added {
      OpenedHere(s, added, tenant, timeout, now, during);
    } else {
      var put := s.(requests := s.requests[added := Request(tenant, Pending, Some(now + timeout), None)]);
      assert SameAt(s, put, id);
      if during.Some? { DecidedElsewhere(put, added, during.value, now, id); }
      assert SameAt(s, Announced(s, added, tenant, timeout, now, during), id);
    }
  }

  lemma TimedOutKeeps(c: Config, s: State, fired: Id, now: int, id: Id)
    requires c.autoDeny && Ok(s, id) && fired in s.timers
    ensures Ok(TimedOut(c, s, fired, now), id) && KeptAt(s, TimedOut(c, s, fired, now), id)
  {
    var rest := s.(timers := s.timers - {fired});
    if id != fired {
      assert SameAt(s, rest, id);
      DecidedElsewhere(rest, fired, Expired, now, id);
    }
  }

  lemma CleanedOneKeeps(c: Config, s: State, cleaned: Id, now: int, id: Id)
    requires c.autoDeny && Ok(s, id)
    ensures Ok(CleanedOne(c, s, cleaned, now), id) && KeptAt(s, CleanedOne(c, s, cleaned, now), id)
  {
    if cleaned in s.requests && Overdue(s.requests[cleaned], now) { DecidedKeeps(s, cleaned, Expired, now, id); }
  }

  lemma {:induction false} CleanedKeeps(c: Config, s: State, ids: seq<Id>, now: int, id: Id)
    requires c.autoDeny && Ok(s, id)
    ensures Ok(Cleaned(c, s, ids, now), id) && KeptAt(s, Cleaned(c, s, ids, now), id)
    decreases |ids|
  {
    if ids != [] {
      var n := |ids| - 1;
      CleanedKeeps(c, s, ids[..n], now, id);
      CleanedOneKeeps(c, Cleaned(c, s, ids[..n], now), ids[n], now, id);
    }
  }

  lemma StepKeeps(c: Config, s: State, a: Action, id: Id)
    requires c.autoDeny && Inv(s) && Enabled(s, a)
    ensures Ok(Apply(c, s, a), id) && KeptAt(s, Apply(c, s, a), id)
  {
    assert Ok(s, id);
    match a {
      case Open(added, tenant, timeout, now, during) =>
        assert Ok(s, added);
        if !OverLimit(c, s, tenant) { OpenedKeeps(s, added, tenant, timeout, now, during, id); }
      case CreateBatch(batch, ids, tenant) =>
      case Decide(d, to, now) => DecidedKeeps(s, d, to, now, id);
      case DecideBatch(batch, to, now) =>
        if batch in s.batches { DecidedAllKeeps(s, s.batches[batch], to, now, id); }
      case TimeOut(fired, now) => TimedOutKeeps(c, s, fired, now, id);
      case CleanUp(ids, now) => CleanedKeeps(c, s, ids, now, id);
    }
  }

  lemma NextKeeps(c: Config, s: State, t: State, id: Id)
    requires c.autoDeny && Inv(s) && Next(c, s, t)
    ensures Ok(t, id) && KeptAt(s, t, id)
  {
    var a :| Enabled(s, a) && t == Apply(c, s, a);
    StepKeeps(c, s, a, id);
  }

  lemma InitOk(id: Id)
    ensures Ok(Init(), id)
  {}

  lemma {:induction false} RunInv(c: Config, run: seq<State>, k: nat)
    requires c.autoDeny && IsRun(c, run) && k < |run|
    ensures Inv(run[k])
  {
    if k == 0 {
      forall id: Id ensures Ok(run[k], id) { InitOk(id); }
    } else {
      RunInv(c, run, k - 1);
      forall id: Id ensures Ok(run[k], id) { NextKeeps(c, run[k - 1], run[k], id); }
    }
  }

  lemma {:induction false} RunKeeps(c: Config, run: seq<State>, i: nat, k: nat, id: Id)
    requires c.autoDeny && IsRun(c, run) && i <= k < |run|
    ensures KeptAt(run[i], run[k], id)
  {
    if i < k {
      RunKeeps(c, run, i, k - 1, id);
      RunInv(c, run, k - 1);
      NextKeeps(c, run[k - 1], run[k], id);
      KeptTwice(run[i], run[k - 1], run[k], id);
    }
  }

  lemma KeptTwice(s: State, t: State, u: State, id: Id)
    requires KeptAt(s, t, id) && KeptAt(t, u, id)
    ensures KeptAt(s, u, id)
  {}

  // ---- the main results ----

  /** What a request and its promise look like, whatever has happened so far. */
  ghost predicate Agrees(s: State, id: Id) {
    var left := Exits(s, id);
    && |left| <= 1
    && (id in s.requests ==> s.requests[id].status == if left == [] then Pending else left[0])
    && (id in s.promises && id !in s.early ==>
      && (s.promises[id].Waiting? <==> IsPending(s.requests, id))
      && (s.promises[id] == Fulfilled(true) <==> left == [Approved])
      && (s.promises[id] == Fulfilled(false) <==> left == [Denied] || left == [Expired] || left == [Cancelled])
      && (s.promises[id].Rejected? <==> left == [] && id !in s.requests))
    && (id in s.early ==> left != [] && id in s.promises && s.promises[id].Waiting?)
    && (id in s.issued && id !in s.requests ==> left != [] || (id in s.promises && s.promises[id].Rejected?))
  }

  lemma OkAgrees(s: State, id: Id)
    requires Ok(s, id)
    ensures Agrees(s, id)
  {
    var left := Exits(s, id);
    if left != [] {
      assert left == [left[0]];
      assert left[0].Approved? || left[0].Denied? || left[0].Expired? || left[0].Cancelled?;
    }
  }

  /** Over every run in which unanswered requests are denied: a request leaves PENDING at most once and is not
      deleted before; its promise waits exactly while it is PENDING, unless it was decided while being announced,
      and then waits for ever; and what has been settled or left stays so. */
  lemma ApprovalSafety(c: Config, run: seq<State>, i: nat, k: nat, id: Id)
    requires c.autoDeny && IsRun(c, run) && i <= k < |run|
    ensures Agrees(run[k], id)
    ensures Exits(run[i], id) != [] ==> Exits(run[k], id) == Exits(run[i], id)
    ensures id in run[i].promises ==> id in run[k].promises
    ensures id in run[i].promises && !run[i].promises[id].Waiting? ==> run[k].promises[id] == run[i].promises[id]
    ensures id in run[i].early ==> id in run[k].early
    ensures id in run[i].issued && id !in run[i].requests ==> id !in run[k].requests
  {
    RunInv(c, run, k);
    assert Ok(run[k], id);
    OkAgrees(run[k], id);
    RunInv(c, run, i);
    assert Ok(run[i], id);
    RunKeeps(c, run, i, k, id);
    ShortPrefix(Exits(run[i], id), Exits(run[k], id));
  }

  lemma ShortPrefix(a: seq<Status>, b: seq<Status>)
    requires a <= b && |b| <= 1
    ensures a != [] ==> b == a
  {}

  /** A request whose promise was rejected and which was approved all the same. */
  ghost predicate Contradicts(s: State, id: Id) {
    && id in s.promises && s.promises[id].Rejected?
    && id in s.requests && s.requests[id].status.Approved?
  }

  ghost predicate NeverContradicts(c: Config) {
    forall run, k: nat, id | IsRun(c, run) && k < |run| :: !Contradicts(run[k], id)
  }

  /** Rejected promises stay unapproved exactly when unanswered requests are denied. */
  lemma DenyingOnTimeoutMatters(c: Config)
    ensures NeverContradicts(c) <==> c.autoDeny
  {
    if c.autoDeny {
      forall run, k: nat, id | IsRun(c, run) && k < |run| ensures !Contradicts(run[k], id) {
        ApprovalSafety(c, run, k, k, id);
      }
    } else {
      var run := ApprovedAfterTimeout(c);
      assert Contradicts(run[3], 0);
    }
  }

  lemma ApprovedAfterTimeout(c: Config) returns (run: seq<State>)
    requires !c.autoDeny
    ensures IsRun(c, run) && |run| == 4 && Contradicts(run[3], 0)
  {
    var a1, a2, a3 := Open(0, NO_TENANT, 0, 0, None), TimeOut(0, 1), Decide(0, Approved, 2);
    var s0 := Init();
    var s1 := Apply(c, s0, a1);
    var s2 := Apply(c, s1, a2);
    var s3 := Apply(c, s2, a3);
    assert Enabled(s0, a1) && Enabled(s1, a2) && Enabled(s2, a3);
    assert Next(c, s0, s1) && Next(c, s1, s2) && Next(c, s2, s3);
    run := [s0, s1, s2, s3];
  }

  /** A decision taken by a listener of the announcement is lost: the request is approved, the promise waits. */
  lemma DecisionDuringAnnouncementIsLost(c: Config) returns (run: seq<State>)
    ensures IsRun(c, run) && |run| == 2
    ensures 0 in run[1].requests && run[1].requests[0].status.Approved? && run[1].promises == map[0 := Waiting]
  {
    var a := Open(0, NO_TENANT, 0, 0, Some(Approved));
    assert Enabled(Init(), a);
    run := [Init(), Apply(c, Init(), a)];
    assert Next(c, run[0], run[1]);
  }

  // ---- what the loops do, request by request ----

  function LookUp(requests: map<Id, Request>, id: Id): Option<Request> {
    if id in requests then Some(requests[id]) else None
  }

  function Marked(r: Request, to: Status, now: int): Request {
    r.(status := to, resolvedAt := Some(now))
  }

  /** A request after a clean-up: expired if it was pending past its date, gone if it was resolved more than an hour
      (in milliseconds) ago, and otherwise as it was. */
  function CleanRequest(c: Config, r: Request, now: int): Option<Request> {
    if c.autoDeny && r.status == Pending && r.expiresAt.Some? && now > r.expiresAt.value then
      Some(Request(r.tenant, Expired, r.expiresAt, Some(now)))
    else if r.resolvedAt.Some? && now > r.resolvedAt.value + 60 * 60 * 1000 then None
    else Some(r)
  }

  /** Clean-up expires exactly the overdue requests and deletes exactly those resolved more than an hour ago. */
  lemma {:induction false} CleanedExactly(c: Config, s: State, ids: seq<Id>, now: int, id: Id)
    ensures LookUp(Cleaned(c, s, ids, now).requests, id)
         == if id in s.requests && id in ids then CleanRequest(c, s.requests[id], now) else LookUp(s.requests, id)
    decreases |ids|
  {
    if ids != [] {
      var n := |ids| - 1;
      CleanedExactly(c, s, ids[..n], now, id);
      var mid := Cleaned(c, s, ids[..n], now);
      assert id in ids <==> id in ids[..n] || id == ids[n];
      CleanedOneExactly(c, mid, ids[n], now, id);
    }
  }

  lemma CleanedOneExactly(c: Config, s: State, cleaned: Id, now: int, id: Id)
    ensures LookUp(CleanedOne(c, s, cleaned, now).requests, id)
         == if id in s.requests && id == cleaned then CleanRequest(c, s.requests[id], now) else LookUp(s.requests, id)
  {}

  /** Deciding a list of requests decides those that are pending and no others. */
  lemma {:induction false} DecidedExactly(s: State, ids: seq<Id>, to: Status, now: int, id: Id)
    requires !to.Pending?
    ensures LookUp(DecidedAll(s, ids, to, now).requests, id)
         == if IsPending(s.requests, id) && id in ids then Some(Marked(s.requests[id], to, now))
           else LookUp(s.requests, id)
    decreases |ids|
  {
    if ids != [] {
      var n := |ids| - 1;
      DecidedExactly(s, ids[..n], to, now, id);
      assert id in ids <==> id in ids[..n] || id == ids[n];
      DecidedOneExactly(DecidedAll(s, ids[..n], to, now), ids[n], to, now, id);
    }
  }

  lemma DecidedOneExactly(s: State, decided: Id, to: Status, now: int, id: Id)
    ensures LookUp(Decided(s, decided, to, now).requests, id)
         == if IsPending(s.requests, id) && id == decided then Some(Marked(s.requests[id], to, now))
           else LookUp(s.requests, id)
  {}

  /** A request that nobody decides expires at the first clean-up after its timeout, and not before. */
  lemma ExpiresAfterTimeout(c: Config, s: State, id: Id, tenant: Tenant, timeout: int, begun: int, ids: seq<Id>,
                            now: int)
    requires c.autoDeny && Enabled(s, Open(id, tenant, timeout, begun, None)) && !OverLimit(c, s, tenant) && id in ids
    ensures var t := Apply(c, s, Open(id, tenant, timeout, begun, None));
      && IsPending(t.requests, id)
      && LookUp(Cleaned(c, t, ids, now).requests, id)
         == Some(if now > begun + timeout then Request(tenant, Expired, Some(begun + timeout), Some(now))
                 else t.requests[id])
  {
    CleanedExactly(c, Apply(c, s, Open(id, tenant, timeout, begun, None)), ids, now, id);
  }

  // ---- how many requests a tenant can have pending ----

  /** A step other than the creation of a batch. */
  ghost predicate NextAlone(c: Config, s: State, t: State) {
    exists a :: Enabled(s, a) && !a.CreateBatch? && t == Apply(c, s, a)
  }

  ghost predicate IsRunAlone(c: Config, run: seq<State>) {
    && run != [] && run[0] == Init()
    && forall k | 0 < k < |run| :: NextAlone(c, run[k - 1], run[k])
  }

  /** Only opening a request and creating a batch make requests pending. */
  lemma PendingBefore(c: Config, s: State, a: Action, id: Id)
    requires Enabled(s, a) && !a.CreateBatch? && IsPending(Apply(c, s, a).requests, id)
    ensures (a.Open? && id == a.id && !OverLimit(c, s, a.tenant) && Apply(c, s, a).requests[id].tenant == a.tenant)
         || (IsPending(s.requests, id) && Apply(c, s, a).requests[id].tenant == s.requests[id].tenant)
  {
    match a {
      case Open(added, tenant, timeout, now, during) =>
        if !OverLimit(c, s, tenant) { OpenedElsewhere(s, added, tenant, timeout, now, during, id); }
      case Decide(d, to, now) => DecidedOneExactly(s, d, to, now, id);
      case DecideBatch(batch, to, now) =>
        if batch in s.batches { DecidedExactly(s, s.batches[batch], to, now, id); }
      case TimeOut(fired, now) =>
        DecidedOneExactly(s.(timers := s.timers - {fired}), fired, Expired, now, id);
      case CleanUp(ids, now) => CleanedExactly(c, s, ids, now, id);
    }
  }

  lemma OpenedElsewhere(s: State, added: Id, tenant: Tenant, timeout: int, now: int, during: Option<Status>, id: Id)
    ensures var t := Opened(s, added, tenant, timeout, now, during);
      if id == added then id in t.requests && t.requests[id].tenant == tenant
      else LookUp(t.requests, id) == LookUp(s.requests, id)
  {
    var put := s.(requests := s.requests[added := Request(tenant, Pending, Some(now + timeout), None)]);
    if during.Some? { DecidedOneExactly(put, added, during.value, now, id); }
  }

  lemma StepWithinLimit(c: Config, s: State, a: Action, tenant: Tenant)
    requires Enabled(s, a) && !a.CreateBatch? && tenant != NO_TENANT
    requires |PendingOf(s.requests, tenant)| <= Limit(c)
    ensures |PendingOf(Apply(c, s, a).requests, tenant)| <= Limit(c)
  {
    var before, after := PendingOf(s.requests, tenant), PendingOf(Apply(c, s, a).requests, tenant);
    forall id | id in after
      ensures id in before || (a.Open? && id == a.id && a.tenant == tenant && |before| < Limit(c))
    {
      PendingBefore(c, s, a, id);
    }
    if a.Open? && a.tenant == tenant && |before| < Limit(c) {
      Bounded(after, before + {a.id});
    } else {
      Bounded(after, before);
    }
  }

  lemma Bounded(a: set<Id>, b: set<Id>)
    requires a <= b
    ensures |a| <= |b|
  {
    assert b == a + (b - a);
  }

  /** Without batches a tenant never has more requests pending than the configured number, or 100 if none is. */
  lemma {:induction false} TenantWithinLimit(c: Config, run: seq<State>, k: nat, tenant: Tenant)
    requires IsRunAlone(c, run) && k < |run| && tenant != NO_TENANT
    ensures |PendingOf(run[k].requests, tenant)| <= if c.maxPending == 0 then 100 else c.maxPending
  {
    if k > 0 {
      TenantWithinLimit(c, run, k - 1, tenant);
      assert NextAlone(c, run[k - 1], run[k]);
      var a :| Enabled(run[k - 1], a) && !a.CreateBatch? && run[k] == Apply(c, run[k - 1], a);
      StepWithinLimit(c, run[k - 1], a, tenant);
    } else {
      assert PendingOf(run[0].requests, tenant) == {};
    }
  }

  /** A request is refused if and only if its tenant has reached that number. */
  lemma RefusedAtLimit(c: Config, run: seq<State>, k: nat, id: Id, tenant: Tenant, timeout: int, now: int,
                       during: Option<Status>)
    requires IsRunAlone(c, run) && k < |run| && Enabled(run[k], Open(id, tenant, timeout, now, during))
    ensures var t := Apply(c, run[k], Open(id, tenant, timeout, now, during));
      && id in t.promises
      && (t.promises[id].Rejected? <==>
           && tenant != NO_TENANT
           && |PendingOf(run[k].requests, tenant)| == if c.maxPending == 0 then 100 else c.maxPending)
  {
    if tenant != NO_TENANT { TenantWithinLimit(c, run, k, tenant); }
  }

  /** A batch is not counted: one that is large enough takes its tenant over the number. */
  lemma BatchGoesOverLimit(c: Config, tenant: Tenant) returns (run: seq<State>)
    requires c.batching && tenant != NO_TENANT
    ensures IsRun(c, run) && |run| == 2 && |PendingOf(run[1].requests, tenant)| > Limit(c)
  {
    var ids := FirstIds(Limit(c) + 1);
    var a := CreateBatch(0, ids, tenant);
    assert Enabled(Init(), a);
    run := [Init(), Apply(c, Init(), a)];
    assert Next(c, run[0], run[1]);
    FirstIdsCount(Limit(c) + 1);
    assert PendingOf(run[1].requests, tenant) == IdSet(ids);
  }

  function FirstIds(n: nat): (r: seq<Id>)
    ensures |r| == n && forall i | 0 <= i < n :: r[i] == i
  {
    seq(n, i => i)
  }

  function IdSet(ids: seq<Id>): set<Id> {
    set i | i in ids
  }

  lemma {:induction false} FirstIdsCount(n: nat)
    ensures |IdSet(FirstIds(n))| == n
  {
    if n > 0 {
      FirstIdsCount(n - 1);
      assert FirstIds(n) == FirstIds(n - 1) + [n - 1];
      assert IdSet(FirstIds(n)) == IdSet(FirstIds(n - 1)) + {n - 1};
      assert n - 1 !in IdSet(FirstIds(n - 1));
    } else {
      assert IdSet(FirstIds(n)) == {};
    }
  }
}
