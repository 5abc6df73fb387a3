/** What a shared context answers, told from the operations that came before: who set the key last, who shared it with
    whom, and who deleted it. Nothing here mentions entries, scopes in force or access lists. */
module SharedHistories {
  import opened Common
  import opened SharedContext
  import opened StoreQuery

  // ---- the history of a key ----

  /** Operation `i` is the `set` in force before operation `n`: no later one replaces it, and its agent has not deleted
      the key since. */
  ghost predicate InForce(ops: seq<Op>, i: int, n: nat, key: Key) {
    && 0 <= i < n <= |ops| && ops[i].Set? && ops[i].key == key
    && forall j | i < j < n :: !Ends(ops[i], ops[j])
  }

  predicate Ends(first: Op, op: Op)
    requires first.Set?
  {
    (op.Set? && op.key == first.key) || op == Delete(first.key, first.who)
  }

  /** Operation `j` is made by the owner of the key at that time. */
  ghost predicate ByOwner(ops: seq<Op>, j: nat, key: Key)
    requires j < |ops|
  {
    exists i :: InForce(ops, i, j, key) && ops[j].who == ops[i].who
  }

  /** The owner has shared the key since operation `i` set it. */
  ghost predicate SharedSince(ops: seq<Op>, i: nat, n: nat)
    requires i < |ops| && n <= |ops| && ops[i].Set?
  {
    exists j :: i < j < n && ops[j].Share? && ops[j].key == ops[i].key && ops[j].who == ops[i].who
  }

  /** The agent is named by an owner who shared the key, and the key has not been deleted since. */
  ghost predicate Named(ops: seq<Op>, n: nat, key: Key, agent: AgentId)
    requires n <= |ops|
  {
    exists j :: NamedAt(ops, j, n, key, agent)
  }

  ghost predicate NamedAt(ops: seq<Op>, j: int, n: nat, key: Key, agent: AgentId)
    requires n <= |ops|
  {
    && 0 <= j < n && ops[j].Share? && ops[j].key == key && agent in ops[j].agents && ByOwner(ops, j, key)
    && forall l | j < l < n :: !DeletesKey(ops, l, key)
  }

  ghost predicate DeletesKey(ops: seq<Op>, l: nat, key: Key)
    requires l < |ops|
  {
    ops[l].Delete? && ops[l].key == key && ByOwner(ops, l, key)
  }

  /** Whether another agent than the owner may read what operation `i` set: it was set as global and not shared since,
      or it was set as shared or shared since, and the agent is named. */
  ghost predicate MayRead(ops: seq<Op>, i: nat, n: nat, agent: AgentId)
    requires i < |ops| && n <= |ops| && ops[i].Set?
  {
    || (ops[i].scope == Global && !SharedSince(ops, i, n))
    || ((ops[i].scope == Shared || SharedSince(ops, i, n)) && Named(ops, n, ops[i].key, agent))
  }

  // ---- the stores after a history ----

  function MemFrom(m: Mem, ops: seq<Op>, n: nat): Mem
    requires n <= |ops|
  {
    if n == 0 then m else MemStep(MemFrom(m, ops, n - 1), ops[n - 1]).0
  }

  function RedisFrom(s: Redis, ops: seq<Op>, n: nat): Redis
    requires n <= |ops|
  {
    if n == 0 then s else RedisStep(RedisFrom(s, ops, n - 1), ops[n - 1]).0
  }

  /** The stores after the first `n` operations, both empty at first. */
  function MemAfter(ops: seq<Op>, n: nat): Mem
    requires n <= |ops|
  {
    MemFrom(NEW_MEM, ops, n)
  }

  function RedisAfter(ops: seq<Op>, n: nat): Redis
    requires n <= |ops|
  {
    RedisFrom(NEW_REDIS, ops, n)
  }

  ghost predicate EntryTells(ops: seq<Op>, i: int, n: nat, e: Entry)
    requires 0 <= i < |ops| && n <= |ops| && ops[i].Set?
  {
    e.value == ops[i].v && e.owner == ops[i].who && e.scope == if SharedSince(ops, i, n) then Shared else ops[i].scope
  }

  /** The in-memory store holds what the history says. */
  ghost predicate Told(ops: seq<Op>, n: nat, key: Key)
    requires n <= |ops|
  {
    var m := MemAfter(ops, n);
    && (forall i | InForce(ops, i, n, key) :: key in m.entries && EntryTells(ops, i, n, m.entries[key]))
    && (key in m.entries ==> exists i :: InForce(ops, i, n, key))
    && (forall agent :: agent in Allowed(m.acl, key) <==> Named(ops, n, key, agent))
  }

  lemma OneInForce(ops: seq<Op>, i: int, j: int, n: nat, key: Key)
    requires InForce(ops, i, n, key) && InForce(ops, j, n, key)
    ensures i == j
  {
    if i < j { assert Ends(ops[i], ops[j]); }
    if j < i { assert Ends(ops[j], ops[i]); }
  }

  lemma StillInForce(ops: seq<Op>, i: int, n: nat, key: Key)
    requires n < |ops| && 0 <= i < n
    ensures InForce(ops, i, n + 1, key) <==> InForce(ops, i, n, key) && !Ends(ops[i], ops[n])
  {}

  /** The operation that makes an owner of `who`, given what the store holds. */
  lemma OwnerIsTold(ops: seq<Op>, n: nat, key: Key)
    requires n < |ops| && Told(ops, n, key)
    ensures var m := MemAfter(ops, n);
      ByOwner(ops, n, key) <==> key in m.entries && m.entries[key].owner == ops[n].who
  {
    var m := MemAfter(ops, n);
    if key in m.entries {
      var i :| InForce(ops, i, n, key);
      assert EntryTells(ops, i, n, m.entries[key]);
      if ByOwner(ops, n, key) {
        var j :| InForce(ops, j, n, key) && ops[n].who == ops[j].who;
        OneInForce(ops, i, j, n, key);
      }
    }
  }

  lemma NamedNext(ops: seq<Op>, n: nat, key: Key, agent: AgentId)
    requires n < |ops|
    ensures Named(ops, n + 1, key, agent) <==>
      && !DeletesKey(ops, n, key)
      && (Named(ops, n, key, agent)
        || (ops[n].Share? && ops[n].key == key && agent in ops[n].agents && ByOwner(ops, n, key)))
  {
    if Named(ops, n + 1, key, agent) {
      var j :| NamedAt(ops, j, n + 1, key, agent);
      if j < n { assert NamedAt(ops, j, n, key, agent); }
    }
    if !DeletesKey(ops, n, key) && Named(ops, n, key, agent) {
      var j :| NamedAt(ops, j, n, key, agent);
      assert NamedAt(ops, j, n + 1, key, agent);
    }
    if ops[n].Share? && ops[n].key == key && agent in ops[n].agents && ByOwner(ops, n, key) {
      assert NamedAt(ops, n, n + 1, key, agent);
    }
  }

  lemma SharedNext(ops: seq<Op>, i: nat, n: nat)
    requires i < n < |ops| && ops[i].Set?
    ensures SharedSince(ops, i, n + 1) <==>
      SharedSince(ops, i, n) || (ops[n].Share? && ops[n].key == ops[i].key && ops[n].who == ops[i].who)
  {}

  /** An operation that leaves the key as it is. */
  predicate Leaves(m: Mem, op: Op, key: Key) {
    op.key != key || op.Get? || (!op.Set? && !(key in m.entries && m.entries[key].owner == op.who))
  }

  lemma LeavesTold(ops: seq<Op>, n: nat, key: Key)
    requires n < |ops| && Told(ops, n, key) && Leaves(MemAfter(ops, n), ops[n], key)
    ensures Told(ops, n + 1, key)
  {
    var k := n + 1;
    var m, m' := MemAfter(ops, n), MemAfter(ops, k);
    assert (key in m'.entries <==> key in m.entries) && Allowed(m'.acl, key) == Allowed(m.acl, key);
    OwnerIsTold(ops, n, key);
    forall i | InForce(ops, i, k, key) ensures key in m'.entries && EntryTells(ops, i, k, m'.entries[key]) {
      StillInForce(ops, i, n, key);
      SharedNext(ops, i, n);
    }
    if key in m'.entries {
      var i :| InForce(ops, i, n, key);
      assert EntryTells(ops, i, n, m.entries[key]);
      StillInForce(ops, i, n, key);
    }
    forall agent ensures agent in Allowed(m'.acl, key) <==> Named(ops, k, key, agent) {
      NamedNext(ops, n, key, agent);
    }
  }

  lemma SetTold(ops: seq<Op>, n: nat, key: Key)
    requires n < |ops| && Told(ops, n, key) && ops[n].Set? && ops[n].key == key
    ensures Told(ops, n + 1, key)
  {
    var k := n + 1;
    var m' := MemAfter(ops, k);
    forall i | 0 <= i < n && ops[i].Set? && ops[i].key == key ensures Ends(ops[i], ops[n]) {}
    assert InForce(ops, n, k, key);
    forall agent ensures agent in Allowed(m'.acl, key) <==> Named(ops, k, key, agent) {
      NamedNext(ops, n, key, agent);
    }
  }

  lemma DeleteTold(ops: seq<Op>, n: nat, key: Key)
    requires n < |ops| && Told(ops, n, key) && ops[n].Delete? && ops[n].key == key && ByOwner(ops, n, key)
    ensures Told(ops, n + 1, key)
  {
    var k := n + 1;
    OwnerIsTold(ops, n, key);
    forall i | InForce(ops, i, n, key) ensures Ends(ops[i], ops[n]) {
      assert EntryTells(ops, i, n, MemAfter(ops, n).entries[key]);
    }
    forall i ensures !InForce(ops, i, k, key) {
      if 0 <= i < n { StillInForce(ops, i, n, key); }
    }
    forall agent ensures !Named(ops, k, key, agent) { NamedNext(ops, n, key, agent); }
  }

  lemma ShareTold(ops: seq<Op>, n: nat, key: Key)
    requires n < |ops| && Told(ops, n, key) && ops[n].Share? && ops[n].key == key && ByOwner(ops, n, key)
    ensures Told(ops, n + 1, key)
  {
    var k := n + 1;
    var m, m' := MemAfter(ops, n), MemAfter(ops, k);
    OwnerIsTold(ops, n, key);
    forall i | InForce(ops, i, k, key) ensures EntryTells(ops, i, k, m'.entries[key]) {
      StillInForce(ops, i, n, key);
      assert EntryTells(ops, i, n, m.entries[key]);
      SharedNext(ops, i, n);
    }
    var i :| InForce(ops, i, n, key);
    StillInForce(ops, i, n, key);
    forall agent ensures agent in Allowed(m'.acl, key) <==> Named(ops, k, key, agent) {
      NamedNext(ops, n, key, agent);
    }
  }

  /** After any history the in-memory store holds, for every key, what the history says. */
  lemma {:induction false} HistoryTold(ops: seq<Op>, n: nat, key: Key)
    requires n <= |ops|
    ensures Told(ops, n, key)
  {
    if n > 0 {
      HistoryTold(ops, n - 1, key);
      OwnerIsTold(ops, n - 1, key);
      var op := ops[n - 1];
      if Leaves(MemAfter(ops, n - 1), op, key) {
        LeavesTold(ops, n - 1, key);
      } else if op.Set? {
        SetTold(ops, n - 1, key);
      } else if op.Delete? {
        DeleteTold(ops, n - 1, key);
      } else {
        ShareTold(ops, n - 1, key);
      }
    }
  }

  /** How often the key has been set since it was last deleted. */
  ghost function TimesSet(ops: seq<Op>, n: nat, key: Key): nat
    requires n <= |ops|
  {
    if n == 0 || DeletesKey(ops, n - 1, key) then 0
    else TimesSet(ops, n - 1, key) + if ops[n - 1].Set? && ops[n - 1].key == key then 1 else 0
  }

  /** Versions count the times a key was set. */
  lemma {:induction false} VersionTold(ops: seq<Op>, n: nat, key: Key)
    requires n <= |ops|
    ensures var m := MemAfter(ops, n);
      TimesSet(ops, n, key) == if key in m.entries then m.entries[key].version else 0
  {
    if n > 0 {
      VersionTold(ops, n - 1, key);
      HistoryTold(ops, n - 1, key);
      OwnerIsTold(ops, n - 1, key);
    }
  }

  /** The metadata of the Redis store tells agent and scope of the `set` in force. */
  ghost predicate MetaTold(ops: seq<Op>, n: nat, key: Key)
    requires n <= |ops|
  {
    var s := RedisAfter(ops, n);
    forall i | InForce(ops, i, n, key) :: key in s.meta && s.meta[key] == (ops[i].who, ops[i].scope)
  }

  lemma {:induction false} HistoryMatches(ops: seq<Op>, n: nat)
    requires n <= |ops|
    ensures Matches(MemAfter(ops, n), RedisAfter(ops, n))
  {
    if n == 0 {
      EmptyStoresMatch();
    } else {
      HistoryMatches(ops, n - 1);
      StepKeepsMatch(MemAfter(ops, n - 1), RedisAfter(ops, n - 1), ops[n - 1]);
    }
  }

  lemma {:induction false} MetaByHistory(ops: seq<Op>, n: nat, key: Key)
    requires n <= |ops|
    ensures MetaTold(ops, n, key)
  {
    if n > 0 {
      MetaByHistory(ops, n - 1, key);
      HistoryMatches(ops, n - 1);
      HistoryTold(ops, n - 1, key);
      MetaNext(ops, n - 1, key);
    }
  }

  lemma MetaNext(ops: seq<Op>, n: nat, key: Key)
    requires n < |ops| && MetaTold(ops, n, key) && Told(ops, n, key)
    requires Matches(MemAfter(ops, n), RedisAfter(ops, n))
    ensures MetaTold(ops, n + 1, key)
  {
    var k, s, s' := n + 1, RedisAfter(ops, n), RedisAfter(ops, n + 1);
    forall i | InForce(ops, i, k, key) ensures key in s'.meta && s'.meta[key] == (ops[i].who, ops[i].scope) {
      if i < n {
        StillInForce(ops, i, n, key);
        assert EntryTells(ops, i, n, s.entries[key]);
      }
    }
  }

  // ---- answers ----

  /** What an operation is to answer after the first `n`: `stale` says whether the store goes by the scope a private
      entry was set with even after it was shared. */
  ghost predicate AnswersAs(ops: seq<Op>, n: nat, answer: Answer, stale: bool)
    requires n < |ops|
  {
    if ops[n].Set? then answer == Done
    else if !exists i :: InForce(ops, i, n, ops[n].key) then answer == if ops[n].Share? then NotFound else Nothing
    else exists i :: InForce(ops, i, n, ops[n].key) && AnswersOn(ops, i, n, answer, stale)
  }

  /** The same for a key that operation `i` has set. */
  ghost predicate AnswersOn(ops: seq<Op>, i: int, n: nat, answer: Answer, stale: bool)
    requires 0 <= i < n < |ops| && ops[i].Set?
  {
    var owner := ops[n].who == ops[i].who;
    match ops[n]
    case Get(_, who) =>
      answer == if owner || (MayRead(ops, i, n, who) && !(stale && ops[i].scope == Private)) then Found(ops[i].v)
                else Denied
    case Delete(_, _) => answer == if owner then Deleted else NotOwner
    case Share(_, _, _) => answer == if owner then Done else NotOwner
    case Set(_, _, _, _) => answer == Done
  }

  /** Every answer of the in-memory store is the one the history calls for. */
  lemma MemAnswersByHistory(ops: seq<Op>, n: nat)
    requires n < |ops|
    ensures |MemAnswers(NEW_MEM, ops)| == |ops| && AnswersAs(ops, n, MemAnswers(NEW_MEM, ops)[n], false)
  {
    var key, m := ops[n].key, MemAfter(ops, n);
    MemAnswerAt(NEW_MEM, ops, n);
    HistoryTold(ops, n, key);
    if key in m.entries {
      var i :| InForce(ops, i, n, key);
      assert EntryTells(ops, i, n, m.entries[key]);
      assert AnswersOn(ops, i, n, MemStep(m, ops[n]).1, false);
    }
  }

  /** So is every answer of the Redis store, except that sharing does not open what was set as private. */
  lemma RedisAnswersByHistory(ops: seq<Op>, n: nat)
    requires n < |ops|
    ensures |RedisAnswers(NEW_REDIS, ops)| == |ops| && AnswersAs(ops, n, RedisAnswers(NEW_REDIS, ops)[n], true)
  {
    var key, s := ops[n].key, RedisAfter(ops, n);
    RedisAnswerAt(NEW_REDIS, ops, n);
    HistoryTold(ops, n, key);
    HistoryMatches(ops, n);
    MetaByHistory(ops, n, key);
    assert Allowed(s.acl, key) == Allowed(MemAfter(ops, n).acl, key);
    if key in s.entries {
      var i :| InForce(ops, i, n, key);
      assert EntryTells(ops, i, n, s.entries[key]);
      assert AnswersOn(ops, i, n, RedisStep(s, ops[n]).1, true);
    }
  }

  /** What a query asks for, of the key that operation `i` has set. */
  ghost predicate Asked(ops: seq<Op>, i: int, n: nat, opts: Options, who: AgentId)
    requires 0 <= i < n <= |ops| && ops[i].Set?
  {
    && (who == ops[i].who || MayRead(ops, i, n, who))
    && (opts.owner == "" || opts.owner == ops[i].who)
    && (opts.scopes == None || (if SharedSince(ops, i, n) then Shared else ops[i].scope) in opts.scopes.value)
    && (opts.pattern == None || opts.pattern.value(ops[i].key))
    && exists rest :: ops[i].key == opts.prefix + rest
  }

  /** The in-memory query gives an agent exactly what the history calls for. */
  lemma QueriedByHistory(ops: seq<Op>, n: nat, opts: Options, who: AgentId, key: Key)
    requires n <= |ops|
    ensures MemKeep(MemAfter(ops, n), opts, who)(key) <==>
      exists i :: InForce(ops, i, n, key) && Asked(ops, i, n, opts, who)
  {
    var m := MemAfter(ops, n);
    HistoryTold(ops, n, key);
    if key in m.entries {
      var i :| InForce(ops, i, n, key);
      assert EntryTells(ops, i, n, m.entries[key]);
      PrefixOf(key, opts.prefix);
      if j :| InForce(ops, j, n, key) && Asked(ops, j, n, opts, who) { OneInForce(ops, i, j, n, key); }
    }
  }

  lemma PrefixOf(key: Key, prefix: Key)
    ensures (exists rest :: key == prefix + rest) <==> HasPrefix(key, prefix)
    ensures prefix == "" ==> HasPrefix(key, prefix)
  {
    if HasPrefix(key, prefix) { assert key == prefix + key[|prefix|..]; }
  }

  lemma {:induction false} MemAnswerAt(m: Mem, ops: seq<Op>, n: nat)
    requires n < |ops|
    ensures |MemAnswers(m, ops)| == |ops| && MemAnswers(m, ops)[n] == MemStep(MemFrom(m, ops, n), ops[n]).1
    decreases |ops|
  {
    var m', rest := MemStep(m, ops[0]).0, ops[1..];
    if rest != [] { MemAnswerAt(m', rest, if n > 0 then n - 1 else 0); }
    if n > 0 { MemFromTail(m, ops, n); }
  }

  lemma {:induction false} MemFromTail(m: Mem, ops: seq<Op>, n: nat)
    requires 0 < n <= |ops|
    ensures MemFrom(m, ops, n) == MemFrom(MemStep(m, ops[0]).0, ops[1..], n - 1)
  {
    if n > 1 { MemFromTail(m, ops, n - 1); }
  }

  lemma {:induction false} RedisAnswerAt(s: Redis, ops: seq<Op>, n: nat)
    requires n < |ops|
    ensures |RedisAnswers(s, ops)| == |ops| && RedisAnswers(s, ops)[n] == RedisStep(RedisFrom(s, ops, n), ops[n]).1
    decreases |ops|
  {
    var s', rest := RedisStep(s, ops[0]).0, ops[1..];
    if rest != [] { RedisAnswerAt(s', rest, if n > 0 then n - 1 else 0); }
    if n > 0 { RedisFromTail(s, ops, n); }
  }

  lemma {:induction false} RedisFromTail(s: Redis, ops: seq<Op>, n: nat)
    requires 0 < n <= |ops|
    ensures RedisFrom(s, ops, n) == RedisFrom(RedisStep(s, ops[0]).0, ops[1..], n - 1)
  {
    if n > 1 { RedisFromTail(s, ops, n - 1); }
  }
}
