/** The in-memory message bus: priority queues, one delivery pass per agent, bounded retries, and expiry
    clean-up that may strike at any moment. */
module MessageBus {
  type AgentId = string
  type EnvId = nat
  type PassId = nat

  /** An envelope as queued. Ids are handed out in the order of sending. */
  datatype Envelope = Envelope(id: EnvId, priority: int, expiresAt: int)

  // ---- queues ----

  /** `a` goes before `b`, another envelope: higher priority first, and first come first served within a
      priority. */
  predicate Before(a: Envelope, b: Envelope) {
    a.id != b.id && (a.priority > b.priority || (a.priority == b.priority && a.id < b.id))
  }

  ghost predicate Ordered(q: seq<Envelope>) {
    forall i, j | 0 <= i < j < |q| :: Before(q[i], q[j])
  }

  function Inserted(q: seq<Envelope>, e: Envelope): (r: seq<Envelope>)
    ensures |r| == |q| + 1
  {
    if q == [] then [e]
    else if e.priority > q[0].priority then [e] + q
    else [q[0]] + Inserted(q[1..], e)
  }

  function Removed(q: seq<Envelope>, id: EnvId): (r: seq<Envelope>)
    ensures |r| <= |q|
  {
    if q == [] then [] else if q[0].id == id then q[1..] else [q[0]] + Removed(q[1..], id)
  }

  function Unexpired(q: seq<Envelope>, now: int): (r: seq<Envelope>)
    ensures |r| <= |q|
  {
    if q == [] then []
    else if q[0].expiresAt <= now then Unexpired(q[1..], now)
    else [q[0]] + Unexpired(q[1..], now)
  }

  /** An agent's queue, spliced in place. */
  class Mailbox {
    var queue: seq<Envelope>

    constructor ()
      ensures queue == []
    {
      queue := [];
    }

    /** Before the first envelope of lower priority, or at the end. */
    method InsertByPriority(e: Envelope)
      modifies this
      ensures queue == Inserted(old(queue), e)
    {
      for i := 0 to |queue|
        invariant queue == old(queue)
        invariant Inserted(queue, e) == queue[..i] + Inserted(queue[i..], e)
      {
        if e.priority > queue[i].priority {
          assert Inserted(queue[i..], e) == [e] + queue[i..];
          queue := queue[..i] + [e] + queue[i..];
          return;
        }
        assert queue[i..][1..] == queue[i + 1..];
        assert queue[..i] + [queue[i]] == queue[..i + 1];
        assert queue[..i] + ([queue[i]] + Inserted(queue[i + 1..], e)) == queue[..i + 1] + Inserted(queue[i + 1..], e);
      }
      assert queue[..|queue|] == queue && queue[|queue|..] == [];
      queue := queue + [e];
    }

    /** Look the envelope up and splice it out, if it is still there. */
    method Remove(id: EnvId)
      modifies this
      ensures queue == Removed(old(queue), id)
    {
      for i := 0 to |queue|
        invariant queue == old(queue)
        invariant Removed(queue, id) == queue[..i] + Removed(queue[i..], id)
      {
        assert queue[i..][1..] == queue[i + 1..];
        if queue[i].id == id {
          queue := queue[..i] + queue[i + 1..];
          return;
        }
        assert queue[..i] + [queue[i]] == queue[..i + 1];
        assert queue[..i] + ([queue[i]] + Removed(queue[i + 1..], id)) == queue[..i + 1] + Removed(queue[i + 1..], id);
      }
      assert queue[..|queue|] == queue && queue[|queue|..] == [];
    }

    /** Collect what has expired, then splice each out. */
    method CleanUp(now: int) returns (expired: nat)
      modifies this
      ensures queue == Unexpired(old(queue), now) && expired == |old(queue)| - |queue|
    {
      expired := 0;
      var i := 0;
      while i < |queue|
        invariant i <= |queue| <= |old(queue)| && expired == |old(queue)| - |queue|
        invariant Unexpired(old(queue), now) == queue[..i] + Unexpired(queue[i..], now)
        decreases |queue| - i
      {
        UnexpiredNext(queue, i, now);
        if queue[i].expiresAt <= now {
          queue := queue[..i] + queue[i + 1..];
          expired := expired + 1;
        } else {
          i := i + 1;
        }
      }
      assert queue[..i] == queue && queue[i..] == [];
    }
  }

  /** The next envelope of a queue is spliced out if it has expired, and passed otherwise. */
  lemma UnexpiredNext(q: seq<Envelope>, i: nat, now: int)
    requires i < |q|
    ensures q[i].expiresAt <= now ==>
      var p := q[..i] + q[i + 1..]; p[..i] + Unexpired(p[i..], now) == q[..i] + Unexpired(q[i..], now)
    ensures q[i].expiresAt > now ==> q[..i + 1] + Unexpired(q[i + 1..], now) == q[..i] + Unexpired(q[i..], now)
  {
    assert q[i..][1..] == q[i + 1..] && q[i..][0] == q[i];
    if q[i].expiresAt <= now {
      var p := q[..i] + q[i + 1..];
      assert p[..i] == q[..i] && p[i..] == q[i + 1..];
    } else {
      assert q[..i + 1] == q[..i] + [q[i]];
      assert q[..i] + ([q[i]] + Unexpired(q[i + 1..], now)) == (q[..i] + [q[i]]) + Unexpired(q[i + 1..], now);
    }
  }

  // ---- what the queue operations keep ----

  ghost predicate Has(q: seq<Envelope>, id: EnvId) {
    exists i :: 0 <= i < |q| && q[i].id == id
  }

  ghost predicate AllBelow(q: seq<Envelope>, bound: EnvId) {
    forall i | 0 <= i < |q| :: q[i].id < bound
  }

  /** Every envelope of `r` is one of `q`. */
  ghost predicate Within(r: seq<Envelope>, q: seq<Envelope>) {
    forall e | e in r :: e in q
  }

  lemma {:induction false} InsertedKeeps(q: seq<Envelope>, e: Envelope)
    requires Ordered(q) && AllBelow(q, e.id)
    ensures Ordered(Inserted(q, e)) && forall x :: x in Inserted(q, e) <==> x == e || x in q
  {
    if q == [] {
    } else if e.priority > q[0].priority {
      assert forall i | 0 < i < |q| :: Before(q[0], q[i]);
    } else {
      var rest := q[1..];
      InsertedKeeps(rest, e);
      var r := Inserted(rest, e);
      assert forall x | x in rest :: Before(q[0], x);
      assert q == [q[0]] + rest;
      forall j | 0 <= j < |r| ensures Before(q[0], r[j]) { assert r[j] in r; }
    }
  }

  lemma {:induction false} RemovedKeeps(q: seq<Envelope>, id: EnvId)
    requires Ordered(q)
    ensures Ordered(Removed(q, id)) && Within(Removed(q, id), q) && !Has(Removed(q, id), id)
    ensures forall x | x in q :: x.id != id ==> x in Removed(q, id)
  {
    if q != [] {
      var rest := q[1..];
      assert q == [q[0]] + rest;
      if q[0].id == id {
        forall i | 0 <= i < |rest| ensures rest[i].id != id { assert Before(q[0], q[i + 1]); }
      } else {
        RemovedKeeps(rest, id);
        var r := Removed(rest, id);
        forall j | 0 <= j < |r| ensures Before(q[0], r[j]) && r[j].id != id {
          assert r[j] in r && r[j] in rest;
          var i :| 0 <= i < |rest| && rest[i] == r[j];
          assert Before(q[0], q[i + 1]);
        }
      }
    }
  }

  lemma {:induction false} UnexpiredKeeps(q: seq<Envelope>, now: int)
    requires Ordered(q)
    ensures Ordered(Unexpired(q, now))
    ensures forall x :: x in Unexpired(q, now) <==> x in q && x.expiresAt > now
  {
    if q != [] {
      var rest := q[1..];
      assert q == [q[0]] + rest;
      UnexpiredKeeps(rest, now);
      var r := Unexpired(rest, now);
      forall j | 0 <= j < |r| ensures Before(q[0], r[j]) {
        assert r[j] in r && r[j] in rest;
        var i :| 0 <= i < |rest| && rest[i] == r[j];
        assert Before(q[0], q[i + 1]);
      }
    }
  }
}
