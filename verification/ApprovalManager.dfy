/** The manager of approval requests, whose methods take the steps of the state machine. */
module ApprovalManager {
  import opened Common
  import opened Approvals

  class Manager {
    const config: Config
    var requests: map<Id, Request>
    var batches: map<Id, seq<Id>>
    // the promises handed out, the ids whose listeners are attached, and the ids whose timer runs
    var promises: map<Id, Promise>
    var listening: set<Id>
    var timers: set<Id>
    // what has happened so far
    ghost var exits: map<Id, seq<Status>>
    ghost var early: set<Id>
    ghost var issued: set<Id>

    ghost function View(): State
      reads this
    {
      State(requests, batches, promises, listening, timers, exits, early, issued)
    }

    constructor (config: Config)
      ensures this.config == config && View() == Init()
    {
      this.config := config;
      requests, batches, promises, listening, timers := map[], map[], map[], {}, {};
      exits, early, issued := map[], {}, {};
    }

    method Notify(id: Id, to: Status)
      modifies this`promises, this`listening, this`timers
      ensures View() == Emit(old(View()), id, to)
    {
      if id in listening {
        listening := listening - {id};
        timers := timers - {id};
        if id in promises {
          promises := promises[id := Settle(promises[id], Fulfilled(to.Approved?))];
        }
      }
    }

    /** `approve`, `deny` and `cancel`, by the status they set. */
    method Resolve(id: Id, to: Status, now: int) returns (ok: bool)
      modifies this
      ensures ok == IsPending(old(requests), id)
      ensures View() == Apply(config, old(View()), Decide(id, to, now))
    {
      if id !in requests { return false; }
      var request := requests[id];
      if !request.status.Pending? { return false; }
      requests := requests[id := request.(status := to, resolvedAt := Some(now))];
      exits := exits[id := Exits(View(), id) + [to]];
      Notify(id, to);
      return true;
    }

    /** The number of pending requests of a tenant. */
    method CountPending(tenant: Tenant) returns (n: nat)
      ensures n == |PendingOf(requests, tenant)|
    {
      n := 0;
      var todo := requests.Keys;
      ghost var seen: set<Id> := {};
      while todo != {}
        invariant todo !! seen && todo + seen == requests.Keys
        invariant n == |PendingOf(requests, tenant) * seen|
        decreases todo
      {
        var id :| id in todo;
        todo := todo - {id};
        ghost var counts := requests[id].status.Pending? && (tenant == NO_TENANT || requests[id].tenant == tenant);
        assert id in PendingOf(requests, tenant) <==> counts;
        SizeOne(PendingOf(requests, tenant) * seen, PendingOf(requests, tenant) * (seen + {id}), id, counts);
        if requests[id].status.Pending? && (tenant == NO_TENANT || requests[id].tenant == tenant) {
          n := n + 1;
        }
        seen := seen + {id};
      }
      assert PendingOf(requests, tenant) * seen == PendingOf(requests, tenant);
    }

    /** `during` is the decision, if any, of a listener of the announcement. */
    method Announce(id: Id, tenant: Tenant, timeout: int, now: int, during: Option<Status>)
      modifies this
      ensures View() == Announced(old(View()), id, tenant, timeout, now, during)
    {
      requests := requests[id := Request(tenant, Pending, Some(now + timeout), None)];
      if during.Some? {
        var _ := Resolve(id, during.value, now);
        early := early + {id};
      }
    }

    method RequestApproval(id: Id, tenant: Tenant, timeout: int, now: int, during: Option<Status>)
      modifies this
      ensures View() == Apply(config, old(View()), Open(id, tenant, timeout, now, during))
    {
      var over := false;
      if tenant != NO_TENANT {
        var pending := CountPending(tenant);
        over := pending >= Limit(config);
      }
      assert over == OverLimit(config, View(), tenant);
      if over {
        promises := promises[id := Rejected];
      } else {
        Announce(id, tenant, timeout, now, during);
        promises := promises[id := Waiting];
        timers := timers + {id};
        listening := listening + {id};
      }
      issued := issued + {id};
    }

    method TimerFires(id: Id, now: int)
      modifies this
      ensures View() == Apply(config, old(View()), TimeOut(id, now))
    {
      timers := timers - {id};
      if id in requests && requests[id].status.Pending? {
        if config.autoDeny {
          var _ := Resolve(id, Expired, now);
        } else if id in promises {
          promises := promises[id := Settle(promises[id], Rejected)];
        }
      }
    }

    method AddRequests(ids: seq<Id>, tenant: Tenant)
      modifies this`requests
      ensures requests == BatchRequests(old(requests), ids, tenant)
    {
      for k := 0 to |ids|
        invariant requests == BatchRequests(old(requests), ids[..k], tenant)
      {
        requests := requests[ids[k] := Request(tenant, Pending, None, None)];
        assert ids[..k + 1] == ids[..k] + [ids[k]];
      }
      assert ids[..|ids|] == ids;
    }

    method CreateBatchOf(batch: Id, ids: seq<Id>, tenant: Tenant) returns (ok: bool)
      modifies this
      ensures ok == config.batching
      ensures View() == Apply(config, old(View()), CreateBatch(batch, ids, tenant))
    {
      if !config.batching { return false; }
      AddRequests(ids, tenant);
      batches := batches[batch := ids];
      issued := issued + (set i | i in ids);
      return true;
    }

    /** `approveBatch` and `denyBatch`: the number returned is the number of the batch's requests that were pending. */
    method ResolveBatch(batch: Id, to: Status, now: int) returns (n: nat)
      requires IsDecision(to)
      modifies this
      ensures View() == Apply(config, old(View()), DecideBatch(batch, to, now))
      ensures batch !in old(batches) ==> n == 0
      ensures batch in old(batches) ==> n == |set id | id in old(batches[batch]) && IsPending(old(requests), id)|
    {
      n := 0;
      if batch !in batches { return; }
      var ids := batches[batch];
      ghost var before := View();
      for k := 0 to |ids|
        invariant View() == DecidedAll(before, ids[..k], to, now)
        invariant n == |PendingIn(before.requests, ids[..k])|
      {
        assert ids[..k + 1][..k] == ids[..k];
        OneMore(before, ids, k, to, now);
        var ok := Resolve(ids[k], to, now);
        if ok { n := n + 1; }
      }
      assert ids[..|ids|] == ids;
    }

    /** The ids returned are the order in which the map was gone through. */
    method CleanupExpired(now: int) returns (ghost order: seq<Id>)
      modifies this
      ensures forall id :: id in order <==> id in old(requests)
      ensures View() == Apply(config, old(View()), CleanUp(order, now))
    {
      order := [];
      var todo := requests.Keys;
      while todo != {}
        invariant forall id :: id in old(requests) <==> id in todo || id in order
        invariant View() == Cleaned(config, old(View()), order, now)
        decreases todo
      {
        var id :| id in todo;
        todo := todo - {id};
        ghost var mid := View();
        if id in requests {
          var request := requests[id];
          if request.status.Pending? && request.expiresAt.Some? && request.expiresAt.value < now && config.autoDeny {
            var _ := Resolve(id, Expired, now);
            request := requests[id];
          }
          if request.resolvedAt.Some? && now - request.resolvedAt.value > HOUR {
            requests := requests - {id};
          }
        }
        assert View() == CleanedOne(config, mid, id, now);
        assert (order + [id])[..|order|] == order;
        order := order + [id];
      }
    }

    /** The five counts are exact, and add up to the matching requests. */
    method GetStats(tenant: Tenant) returns (stats: Stats)
      ensures Exact(stats, requests, tenant) && Total(stats) == |OfTenant(requests, tenant)|
    {
      stats := Stats(0, 0, 0, 0, 0);
      var todo := requests.Keys;
      ghost var seen: map<Id, Request> := map[];
      while todo != {}
        invariant todo !! seen.Keys && todo + seen.Keys == requests.Keys
        invariant forall id | id in seen :: seen[id] == requests[id]
        invariant Tally(stats, seen, tenant)
        decreases todo
      {
        var id :| id in todo;
        todo := todo - {id};
        var request := requests[id];
        TallyOne(stats, seen, tenant, id, request);
        if tenant == NO_TENANT || request.tenant == tenant {
          stats := Counted(stats, request.status);
        }
        seen := seen[id := request];
      }
      assert seen == requests;
    }
  }

  function PendingIn(requests: map<Id, Request>, ids: seq<Id>): set<Id> {
    set id | id in ids && IsPending(requests, id)
  }

  /** The next id of a batch is still pending exactly when it adds to those that were. */
  lemma OneMore(s: State, ids: seq<Id>, k: nat, to: Status, now: int)
    requires k < |ids| && !to.Pending?
    ensures |PendingIn(s.requests, ids[..k + 1])|
         == |PendingIn(s.requests, ids[..k])|
           + (if IsPending(DecidedAll(s, ids[..k], to, now).requests, ids[k]) then 1 else 0)
  {
    assert ids[..k + 1] == ids[..k] + [ids[k]];
    var was, all := PendingIn(s.requests, ids[..k]), PendingIn(s.requests, ids[..k + 1]);
    DecidedExactly(s, ids[..k], to, now, ids[k]);
    if IsPending(DecidedAll(s, ids[..k], to, now).requests, ids[k]) {
      assert ids[k] !in ids[..k] && IsPending(s.requests, ids[k]);
      assert all == was + {ids[k]};
    } else {
      assert all == was;
    }
  }

  // ---- statistics ----

  datatype Stats = Stats(pending: nat, approved: nat, denied: nat, expired: nat, cancelled: nat)

  predicate Concerns(r: Request, tenant: Tenant) {
    tenant == NO_TENANT || r.tenant == tenant
  }

  function OfTenant(requests: map<Id, Request>, tenant: Tenant): set<Id> {
    set id | id in requests && Concerns(requests[id], tenant)
  }

  function Matching(requests: map<Id, Request>, tenant: Tenant, status: Status): set<Id> {
    set id | id in requests && Concerns(requests[id], tenant) && requests[id].status == status
  }

  function Counted(stats: Stats, status: Status): Stats {
    match status
    case Pending => stats.(pending := stats.pending + 1)
    case Approved => stats.(approved := stats.approved + 1)
    case Denied => stats.(denied := stats.denied + 1)
    case Expired => stats.(expired := stats.expired + 1)
    case Cancelled => stats.(cancelled := stats.cancelled + 1)
  }

  function Count(stats: Stats, status: Status): nat {
    match status
    case Pending => stats.pending
    case Approved => stats.approved
    case Denied => stats.denied
    case Expired => stats.expired
    case Cancelled => stats.cancelled
  }

  ghost predicate Exact(stats: Stats, requests: map<Id, Request>, tenant: Tenant) {
    forall status :: Count(stats, status) == |Matching(requests, tenant, status)|
  }

  function Total(stats: Stats): nat {
    stats.pending + stats.approved + stats.denied + stats.expired + stats.cancelled
  }

  ghost predicate Tally(stats: Stats, requests: map<Id, Request>, tenant: Tenant) {
    Exact(stats, requests, tenant) && Total(stats) == |OfTenant(requests, tenant)|
  }

  lemma SizeOne(was: set<Id>, all: set<Id>, id: Id, added: bool)
    requires id !in was && forall j: Id :: j in all <==> j in was || (j == id && added)
    ensures |all| == |was| + if added then 1 else 0
  {
    if added { assert all == was + {id}; } else { assert all == was; }
  }

  lemma MatchingOne(seen: map<Id, Request>, tenant: Tenant, id: Id, r: Request, status: Status)
    requires id !in seen
    ensures |Matching(seen[id := r], tenant, status)|
         == |Matching(seen, tenant, status)| + if Concerns(r, tenant) && r.status == status then 1 else 0
  {
    var was, all := Matching(seen, tenant, status), Matching(seen[id := r], tenant, status);
    forall j: Id ensures j in all <==> j in was || (j == id && Concerns(r, tenant) && r.status == status) {
      if j != id { assert j in seen[id := r] <==> j in seen; }
    }
    SizeOne(was, all, id, Concerns(r, tenant) && r.status == status);
  }

  lemma OfTenantOne(seen: map<Id, Request>, tenant: Tenant, id: Id, r: Request)
    requires id !in seen
    ensures |OfTenant(seen[id := r], tenant)| == |OfTenant(seen, tenant)| + if Concerns(r, tenant) then 1 else 0
  {
    var was, all := OfTenant(seen, tenant), OfTenant(seen[id := r], tenant);
    forall j: Id ensures j in all <==> j in was || (j == id && Concerns(r, tenant)) {
      if j != id { assert j in seen[id := r] <==> j in seen; }
    }
    SizeOne(was, all, id, Concerns(r, tenant));
  }

  lemma TallyOne(stats: Stats, seen: map<Id, Request>, tenant: Tenant, id: Id, r: Request)
    requires Tally(stats, seen, tenant) && id !in seen
    ensures Tally(if Concerns(r, tenant) then Counted(stats, r.status) else stats, seen[id := r], tenant)
  {
    var after := if Concerns(r, tenant) then Counted(stats, r.status) else stats;
    OfTenantOne(seen, tenant, id, r);
    forall status ensures Count(after, status) == |Matching(seen[id := r], tenant, status)| {
      MatchingOne(seen, tenant, id, r, status);
    }
  }
}
