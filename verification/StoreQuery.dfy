/** Queries of the two shared-context stores: which entries they give to whom, and that they give the same. */
module StoreQuery {
  import opened Common
  import opened SharedContext
  import opened ContextQuery

  /** What a query asks for. An empty owner or prefix asks for nothing; the pattern is a test of the key. */
  datatype Options = Options(scopes: Option<seq<Scope>>, owner: AgentId, prefix: Key, pattern: Option<Key -> bool>,
                             offset: int, limit: Option<int>)

  predicate HasPrefix(key: Key, prefix: Key) {
    |prefix| <= |key| && key[..|prefix|] == prefix
  }

  /** The filters both stores apply to an entry they have fetched. */
  predicate Wanted(opts: Options, key: Key, e: Entry) {
    && (opts.scopes.Some? ==> e.scope in opts.scopes.value)
    && (opts.owner != "" ==> e.owner == opts.owner)
    && (opts.pattern.Some? ==> opts.pattern.value(key))
  }

  /** What the in-memory store gives to `who`. */
  function MemKeep(m: Mem, opts: Options, who: AgentId): Key -> bool {
    (key: Key) => key in m.entries && HasAccess(m.entries[key], m.acl, key, who) && Wanted(opts, key, m.entries[key])
               && (opts.prefix != "" ==> HasPrefix(key, opts.prefix))
  }

  /** What the Redis store gives to `who`, among the keys that the scan matched with the prefix. The metadata is not
      looked at. */
  function RedisKeep(s: Redis, opts: Options, who: AgentId): Key -> bool {
    (key: Key) => key in s.entries && HasAccess(s.entries[key], s.acl, key, who) && Wanted(opts, key, s.entries[key])
  }

  function Matching(opts: Options): Key -> bool {
    (key: Key) => HasPrefix(key, opts.prefix)
  }

  /** The in-memory query over the entries in the order in which they were set. */
  method QueryMemory(m: Mem, order: seq<Key>, opts: Options, who: AgentId) returns (results: seq<Key>)
    ensures results == Page(order, MemKeep(m, opts, who), opts.offset, opts.limit)
  {
    results := Query(order, MemKeep(m, opts, who), opts.offset, opts.limit);
  }

  /** The Redis query over the batches of keys that the scan returns for the prefix. */
  method QueryRedis(s: Redis, batches: seq<seq<Key>>, opts: Options, who: AgentId) returns (results: seq<Key>)
    requires |batches| >= 1
    ensures results == Page(Scanned(batches), RedisKeep(s, opts, who), opts.offset, opts.limit)
    ensures |batches| <= MAX_SCAN_ITERATIONS
      ==> results == Page(Concat(batches), RedisKeep(s, opts, who), opts.offset, opts.limit)
  {
    results := ScanQuery(batches, RedisKeep(s, opts, who), opts.offset, opts.limit);
  }

  /** On matched stores the two filters differ only in who looks at the prefix. */
  lemma KeepsAlike(m: Mem, s: Redis, opts: Options, who: AgentId, key: Key)
    requires Matches(m, s)
    ensures MemKeep(m, opts, who)(key) <==> Matching(opts)(key) && RedisKeep(s, opts, who)(key)
  {
    assert Allowed(s.acl, key) == Allowed(m.acl, key);
    assert opts.prefix == "" ==> HasPrefix(key, opts.prefix);
  }

  lemma {:induction false} FilterTwice<T>(xs: seq<T>, p: T -> bool, q: T -> bool, both: T -> bool)
    requires forall x :: both(x) <==> p(x) && q(x)
    ensures Filter(Filter(xs, p), q) == Filter(xs, both)
  {
    if xs != [] {
      var n := |xs| - 1;
      FilterTwice(xs[..n], p, q, both);
      if p(xs[n]) {
        var f := Filter(xs[..n], p);
        assert (f + [xs[n]])[..|f|] == f;
      }
    }
  }

  /** Query agreement: if the scan returns the keys with the prefix in the order in which the in-memory store holds
      them, then both stores answer every query with the same page. */
  lemma QueriesAgree(m: Mem, s: Redis, order: seq<Key>, scanned: seq<Key>, opts: Options, who: AgentId)
    requires Matches(m, s) && scanned == Filter(order, Matching(opts))
    ensures Page(order, MemKeep(m, opts, who), opts.offset, opts.limit)
         == Page(scanned, RedisKeep(s, opts, who), opts.offset, opts.limit)
  {
    forall key ensures MemKeep(m, opts, who)(key) <==> Matching(opts)(key) && RedisKeep(s, opts, who)(key) {
      KeepsAlike(m, s, opts, who, key);
    }
    FilterTwice(order, Matching(opts), RedisKeep(s, opts, who), MemKeep(m, opts, who));
  }

  lemma {:induction false} FilterCounts<T>(xs: seq<T>, p: T -> bool, x: T)
    ensures multiset(Filter(xs, p))[x] == if p(x) then multiset(xs)[x] else 0
  {
    if xs != [] {
      var n := |xs| - 1;
      FilterCounts(xs[..n], p, x);
      assert xs == xs[..n] + [xs[n]];
      assert multiset(xs) == multiset(xs[..n]) + multiset{xs[n]};
    }
  }

  /** In whatever order the scan returns the keys with the prefix, the entries that pass the filters are the same. */
  lemma SameEntriesPass(m: Mem, s: Redis, order: seq<Key>, scanned: seq<Key>, opts: Options, who: AgentId)
    requires Matches(m, s) && multiset(scanned) == multiset(Filter(order, Matching(opts)))
    ensures multiset(Filter(order, MemKeep(m, opts, who))) == multiset(Filter(scanned, RedisKeep(s, opts, who)))
  {
    var mine, theirs := Filter(order, MemKeep(m, opts, who)), Filter(scanned, RedisKeep(s, opts, who));
    forall key ensures multiset(mine)[key] == multiset(theirs)[key] {
      KeepsAlike(m, s, opts, who, key);
      FilterCounts(order, MemKeep(m, opts, who), key);
      FilterCounts(order, Matching(opts), key);
      FilterCounts(scanned, RedisKeep(s, opts, who), key);
    }
  }

  const EVERYTHING := Options(None, "", "", None, 0, None)

  /** The Redis query gives an entry that the Redis `get` denies to the same agent exactly when it was private when
      set and has been shared with that agent since. */
  lemma QueryGivesWhatGetDenies(m: Mem, s: Redis, key: Key, who: AgentId)
    requires Matches(m, s)
    ensures RedisKeep(s, EVERYTHING, who)(key) && RedisStep(s, Get(key, who)).1 == Denied <==> Differs(s, Get(key, who))
  {
    if key in s.entries {
      var scope :| MetaTells(s, key, s.entries[key], scope);
    }
  }

  /** The in-memory query gives exactly what the in-memory `get` finds. */
  lemma MemoryQueryIsGet(m: Mem, key: Key, who: AgentId)
    ensures MemKeep(m, EVERYTHING, who)(key) <==> MemStep(m, Get(key, who)).1.Found?
  {}
}
