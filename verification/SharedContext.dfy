/** The two shared-context stores: the in-memory one and the Redis one, whose `get` looks at a separate
    metadata string before it fetches the entry. Expiry and capacity are set aside. */
module SharedContext {
  import opened Common

  type Key = string
  type AgentId = string
  type Value = string

  datatype Scope = Global | Pipeline | Private | Shared

  datatype Entry = Entry(value: Value, scope: Scope, owner: AgentId, version: nat)

  /** What a call returns or throws. */
  datatype Answer = Done | Found(v: Value) | Nothing | Deleted | Denied | NotOwner | NotFound

  datatype Op =
    | Set(key: Key, v: Value, who: AgentId, scope: Scope)
    | Get(key: Key, who: AgentId)
    | Delete(key: Key, who: AgentId)
    | Share(key: Key, who: AgentId, agents: seq<AgentId>)

  type Acl = map<Key, set<AgentId>>

  function Allowed(acl: Acl, key: Key): set<AgentId> {
    if key in acl then acl[key] else {}
  }

  /** No pipeline membership is recorded on entries, so a pipeline entry is for its owner alone. */
  predicate HasAccess(e: Entry, acl: Acl, key: Key, who: AgentId) {
    e.owner == who || e.scope == Global || (e.scope == Shared && who in Allowed(acl, key))
  }

  function Listed(agents: seq<AgentId>): set<AgentId> {
    set a | a in agents
  }

  // ---- the in-memory store ----

  datatype Mem = Mem(entries: map<Key, Entry>, acl: Acl)

  function VersionAfter(entries: map<Key, Entry>, key: Key): nat {
    if key in entries then entries[key].version + 1 else 1
  }

  function MemStep(m: Mem, op: Op): (Mem, Answer) {
    match op
    case Set(key, v, who, scope) =>
      (m.(entries := m.entries[key := Entry(v, scope, who, VersionAfter(m.entries, key))]), Done)
    case Get(key, who) =>
      if key !in m.entries then (m, Nothing)
      else if !HasAccess(m.entries[key], m.acl, key, who) then (m, Denied)
      else (m, Found(m.entries[key].value))
    case Delete(key, who) =>
      if key !in m.entries then (m, Nothing)
      else if m.entries[key].owner != who then (m, NotOwner)
      else (m.(entries := m.entries - {key}, acl := m.acl - {key}), Deleted)
    case Share(key, who, agents) =>
      if key !in m.entries then (m, NotFound)
      else if m.entries[key].owner != who then (m, NotOwner)
      else (m.(entries := m.entries[key := m.entries[key].(scope := Shared)],
               acl := m.acl[key := Allowed(m.acl, key) + Listed(agents)]), Done)
  }

  class SharedContextManager {
    var entries: map<Key, Entry>
    var accessControl: Acl

    function View(): Mem
      reads this
    {
      Mem(entries, accessControl)
    }

    method Set(key: Key, v: Value, who: AgentId, scope: Scope)
      modifies `entries
      ensures View() == MemStep(old(View()), Op.Set(key, v, who, scope)).0
    {
      var version := if key in entries then entries[key].version + 1 else 1;
      entries := entries[key := Entry(v, scope, who, version)];
    }

    method Get(key: Key, who: AgentId) returns (r: Answer)
      ensures (View(), r) == MemStep(View(), Op.Get(key, who))
    {
      if key !in entries { return Nothing; }
      var e := entries[key];
      if e.owner == who { return Found(e.value); }
      match e.scope
      case Global => return Found(e.value);
      case Private => return Denied;
      case Pipeline => return Denied;
      case Shared =>
        var allowed := if key in accessControl then accessControl[key] else {};
        return if who in allowed then Found(e.value) else Denied;
    }

    method Delete(key: Key, who: AgentId) returns (r: Answer)
      modifies this
      ensures (View(), r) == MemStep(old(View()), Op.Delete(key, who))
    {
      if key !in entries { return Nothing; }
      if entries[key].owner != who { return NotOwner; }
      entries := entries - {key};
      accessControl := accessControl - {key};
      return Deleted;
    }

    method Share(key: Key, who: AgentId, agents: seq<AgentId>) returns (r: Answer)
      modifies this
      ensures (View(), r) == MemStep(old(View()), Op.Share(key, who, agents))
    {
      if key !in entries { return NotFound; }
      if entries[key].owner != who { return NotOwner; }
      if entries[key].scope != Shared { entries := entries[key := entries[key].(scope := Shared)]; }
      assert entries == old(entries)[key := old(entries)[key].(scope := Shared)];
      var allowed := if key in accessControl then accessControl[key] else {};
      for k := 0 to |agents|
        invariant allowed == Allowed(accessControl, key) + Listed(agents[..k])
        invariant accessControl == old(accessControl)
      {
        assert agents[..k + 1] == agents[..k] + [agents[k]];
        allowed := allowed + {agents[k]};
      }
      assert agents[..|agents|] == agents;
      accessControl := accessControl[key := allowed];
      return Done;
    }
  }

  // ---- metadata strings ----

  function ScopeText(s: Scope): string {
    match s
    case Global => "global"
    case Pipeline => "pipeline"
    case Private => "private"
    case Shared => "shared"
  }

  function ScopeOf(t: string): (r: Option<Scope>)
    ensures r.Some? ==> ScopeText(r.value) == t
  {
    if t == "global" then Some(Global) else if t == "pipeline" then Some(Pipeline)
    else if t == "private" then Some(Private) else if t == "shared" then Some(Shared)
    else None
  }

  lemma ScopeRoundTrip(s: Scope)
    ensures ScopeOf(ScopeText(s)) == Some(s) && ':' !in ScopeText(s)
  {
    match s case Global => case Pipeline => case Private => case Shared =>
  }

  function EncodeMeta(owner: AgentId, scope: Scope): string {
    owner + ":" + ScopeText(scope)
  }

  ghost predicate IsLastColon(meta: string, k: int) {
    && -1 <= k < |meta|
    && (k >= 0 ==> meta[k] == ':')
    && forall j | k < j < |meta| :: meta[j] != ':'
  }

  method LastColon(meta: string) returns (k: int)
    ensures IsLastColon(meta, k)
  {
    k := |meta| - 1;
    while k >= 0 && meta[k] != ':'
      invariant -1 <= k < |meta| && forall j | k < j < |meta| :: meta[j] != ':'
    {
      k := k - 1;
    }
  }

  /** The pair a metadata string stands for, if any. */
  ghost function DecodeMeta(meta: string): (r: Option<(AgentId, Scope)>)
    ensures r.Some? ==> meta == EncodeMeta(r.value.0, r.value.1)
    ensures r.None? ==> forall owner, scope :: meta != EncodeMeta(owner, scope)
  {
    if exists owner, scope :: meta == EncodeMeta(owner, scope) then
      var owner, scope :| meta == EncodeMeta(owner, scope);
      Some((owner, scope))
    else None
  }

  /** Splitting at the last colon gives back any owner, colons included. */
  lemma DecodeEncoded(owner: AgentId, scope: Scope)
    ensures DecodeMeta(EncodeMeta(owner, scope)) == Some((owner, scope))
  {
    var r := DecodeMeta(EncodeMeta(owner, scope));
    EncodeInjective(owner, scope, r.value.0, r.value.1);
  }

  method ParseMetadata(meta: string) returns (r: Option<(AgentId, Scope)>)
    ensures r == DecodeMeta(meta)
  {
    var k := LastColon(meta);
    ghost var d := DecodeMeta(meta);
    if d.Some? {
      MetaColon(d.value.0, d.value.1, k);
      ScopeRoundTrip(d.value.1);
    }
    if k == -1 { return None; }
    var scope := ScopeOf(meta[k + 1..]);
    if scope.None? { return None; }
    EncodesBack(meta, k, scope.value);
    return Some((meta[..k], scope.value));
  }

  lemma EncodesBack(meta: string, k: nat, scope: Scope)
    requires k < |meta| && meta[k] == ':' && ScopeOf(meta[k + 1..]) == Some(scope)
    ensures meta == EncodeMeta(meta[..k], scope)
  {}

  lemma MetaColon(owner: AgentId, scope: Scope, k: int)
    requires IsLastColon(EncodeMeta(owner, scope), k)
    ensures k == |owner| && EncodeMeta(owner, scope)[..k] == owner
      && EncodeMeta(owner, scope)[k + 1..] == ScopeText(scope)
  {
    var meta := EncodeMeta(owner, scope);
    ScopeRoundTrip(scope);
    assert meta[|owner|] == ':';
    assert forall j | |owner| < j < |meta| :: meta[j] == ScopeText(scope)[j - |owner| - 1];
  }

  /** Encoding loses nothing: the pair can be read back from the string. */
  lemma EncodeInjective(o1: AgentId, s1: Scope, o2: AgentId, s2: Scope)
    requires EncodeMeta(o1, s1) == EncodeMeta(o2, s2)
    ensures o1 == o2 && s1 == s2
  {
    var meta := EncodeMeta(o1, s1);
    ScopeRoundTrip(s1);
    ScopeRoundTrip(s2);
    assert meta[|o1|] == ':' && meta[|o2|] == ':';
    assert IsLastColon(meta, |o1|) by { assert forall j | |o1| < j < |meta| :: meta[j] == ScopeText(s1)[j - |o1| - 1]; }
    MetaColon(o2, s2, |o1|);
    MetaColon(o1, s1, |o1|);
  }

  // ---- the Redis store ----

  /** The metadata is told as the pair its string stands for. */
  datatype Redis = Redis(entries: map<Key, Entry>, meta: map<Key, (AgentId, Scope)>, acl: Acl, versions: map<Key, nat>)

  /** The metadata check made before the entry is fetched. */
  predicate DeniedEarly(s: Redis, key: Key, who: AgentId) {
    key in s.meta && s.meta[key].0 != who &&
    (s.meta[key].1 == Private || (s.meta[key].1 == Shared && who !in Allowed(s.acl, key)))
  }

  function RedisStep(s: Redis, op: Op): (Redis, Answer) {
    match op
    case Set(key, v, who, scope) =>
      var version := if key in s.versions then s.versions[key] + 1 else 1;
      (s.(entries := s.entries[key := Entry(v, scope, who, version)], meta := s.meta[key := (who, scope)],
          versions := s.versions[key := version]), Done)
    case Get(key, who) =>
      if DeniedEarly(s, key, who) then (s, Denied)
      else if key !in s.entries then (s, Nothing)
      else if !HasAccess(s.entries[key], s.acl, key, who) then (s, Denied)
      else (s, Found(s.entries[key].value))
    case Delete(key, who) =>
      if key !in s.entries then (s, Nothing)
      else if s.entries[key].owner != who then (s, NotOwner)
      else (Redis(s.entries - {key}, s.meta - {key}, s.acl - {key}, s.versions - {key}), Deleted)
    case Share(key, who, agents) =>
      if key !in s.entries then (s, NotFound)
      else if s.entries[key].owner != who then (s, NotOwner)
      else (s.(entries := s.entries[key := s.entries[key].(scope := Shared)],
               acl := if agents == [] then s.acl else s.acl[key := Allowed(s.acl, key) + Listed(agents)]), Done)
  }

  ghost predicate AllDecode(meta: map<Key, string>) {
    forall key | key in meta :: DecodeMeta(meta[key]).Some?
  }

  ghost function DecodedMeta(meta: map<Key, string>): map<Key, (AgentId, Scope)>
    requires AllDecode(meta)
  {
    map key | key in meta :: DecodeMeta(meta[key]).value
  }

  lemma DecodedMetaUpdate(meta: map<Key, string>, key: Key, who: AgentId, scope: Scope)
    requires AllDecode(meta)
    ensures AllDecode(meta[key := EncodeMeta(who, scope)])
    ensures DecodedMeta(meta[key := EncodeMeta(who, scope)]) == DecodedMeta(meta)[key := (who, scope)]
  {
    DecodeEncoded(who, scope);
  }

  class RedisSharedContext {
    var entries: map<Key, Entry>
    var meta: map<Key, string>
    var acl: Acl
    var versions: map<Key, nat>

    /** Every metadata string can be read. */
    ghost predicate Valid()
      reads this
    {
      AllDecode(meta)
    }

    ghost function View(): Redis
      requires Valid()
      reads this
    {
      Redis(entries, DecodedMeta(meta), acl, versions)
    }

    constructor ()
      ensures Valid() && View() == Redis(map[], map[], map[], map[])
    {
      entries, meta, acl, versions := map[], map[], map[], map[];
    }

    method Set(key: Key, v: Value, who: AgentId, scope: Scope)
      requires Valid()
      modifies this
      ensures Valid() && View() == RedisStep(old(View()), Op.Set(key, v, who, scope)).0
    {
      DecodedMetaUpdate(meta, key, who, scope);
      var version := if key in versions then versions[key] + 1 else 1;
      versions := versions[key := version];
      entries := entries[key := Entry(v, scope, who, version)];
      meta := meta[key := EncodeMeta(who, scope)];
    }

    method Get(key: Key, who: AgentId) returns (r: Answer)
      requires Valid()
      ensures (View(), r) == RedisStep(View(), Op.Get(key, who))
    {
      if key in meta {
        var parsed := ParseMetadata(meta[key]);
        if parsed.Some? && parsed.value.0 != who {
          if parsed.value.1 == Private { return Denied; }
          if parsed.value.1 == Shared && !(key in acl && who in acl[key]) { return Denied; }
        }
      }
      if key !in entries { return Nothing; }
      var e := entries[key];
      var ok := e.owner == who || e.scope == Global || (e.scope == Shared && key in acl && who in acl[key]);
      return if ok then Found(e.value) else Denied;
    }

    method Delete(key: Key, who: AgentId) returns (r: Answer)
      requires Valid()
      modifies this
      ensures Valid() && (View(), r) == RedisStep(old(View()), Op.Delete(key, who))
    {
      if key !in entries { return Nothing; }
      if entries[key].owner != who { return NotOwner; }
      ghost var was := View();
      entries, meta, versions, acl := entries - {key}, meta - {key}, versions - {key}, acl - {key};
      assert View().meta == was.meta - {key};
      return Deleted;
    }

    method Share(key: Key, who: AgentId, agents: seq<AgentId>) returns (r: Answer)
      requires Valid()
      modifies this
      ensures Valid() && (View(), r) == RedisStep(old(View()), Op.Share(key, who, agents))
    {
      if key !in entries { return NotFound; }
      if entries[key].owner != who { return NotOwner; }
      if entries[key].scope != Shared { entries := entries[key := entries[key].(scope := Shared)]; }
      assert entries == old(entries)[key := old(entries)[key].(scope := Shared)];
      if |agents| > 0 {
        acl := acl[key := (if key in acl then acl[key] else {}) + Listed(agents)];
      }
      return Done;
    }
  }

  // ---- agreement ----

  /** The scope an entry had when it was last set, as the metadata still tells it. */
  ghost predicate MetaTells(s: Redis, key: Key, e: Entry, scope: Scope) {
    key in s.meta && s.meta[key] == (e.owner, scope) && (e.scope == scope || e.scope == Shared)
  }

  /** Both stores hold the same entries and the same permissions; sharing leaves stale metadata behind. */
  ghost predicate Matches(m: Mem, s: Redis) {
    && s.entries == m.entries
    && (forall key :: Allowed(s.acl, key) == Allowed(m.acl, key))
    && s.meta.Keys == s.versions.Keys == s.entries.Keys
    && (forall key | key in s.entries :: s.versions[key] == s.entries[key].version)
    && (forall key | key in s.entries :: exists scope :: MetaTells(s, key, s.entries[key], scope))
  }

  /** Set as private and shared since: the entry is shared, the metadata still says private. */
  predicate SharedSincePrivate(s: Redis, key: Key) {
    key in s.entries && s.entries[key].scope == Shared && key in s.meta
      && s.meta[key] == (s.entries[key].owner, Private)
  }

  lemma SetKeepsMatch(m: Mem, s: Redis, op: Op)
    requires Matches(m, s) && op.Set?
    ensures Matches(MemStep(m, op).0, RedisStep(s, op).0)
  {
    var s' := RedisStep(s, op).0;
    forall key | key in s'.entries ensures exists scope :: MetaTells(s', key, s'.entries[key], scope) {
      if key == op.key {
        assert MetaTells(s', key, s'.entries[key], op.scope);
      } else {
        var scope :| MetaTells(s, key, s.entries[key], scope);
        assert MetaTells(s', key, s'.entries[key], scope);
      }
    }
  }

  lemma DeleteKeepsMatch(m: Mem, s: Redis, op: Op)
    requires Matches(m, s) && op.Delete? && op.key in s.entries && s.entries[op.key].owner == op.who
    ensures Matches(MemStep(m, op).0, RedisStep(s, op).0)
  {
    var m', s' := MemStep(m, op).0, RedisStep(s, op).0;
    forall key ensures Allowed(s'.acl, key) == Allowed(m'.acl, key) {
      assert Allowed(s.acl, key) == Allowed(m.acl, key);
    }
    forall key | key in s'.entries ensures exists scope :: MetaTells(s', key, s'.entries[key], scope) {
      var scope :| MetaTells(s, key, s.entries[key], scope);
      assert MetaTells(s', key, s'.entries[key], scope);
    }
  }

  lemma ShareKeepsMatch(m: Mem, s: Redis, op: Op)
    requires Matches(m, s) && op.Share? && op.key in s.entries && s.entries[op.key].owner == op.who
    ensures Matches(MemStep(m, op).0, RedisStep(s, op).0)
  {
    var m', s' := MemStep(m, op).0, RedisStep(s, op).0;
    forall key ensures Allowed(s'.acl, key) == Allowed(m'.acl, key) {
      assert Allowed(s.acl, key) == Allowed(m.acl, key);
      if op.agents == [] { assert Listed(op.agents) == {}; }
    }
    forall key | key in s'.entries ensures exists scope :: MetaTells(s', key, s'.entries[key], scope) {
      var scope :| MetaTells(s, key, s.entries[key], scope);
      assert MetaTells(s', key, s'.entries[key], scope);
    }
  }

  /** Every operation keeps the stores matched, whatever it is. */
  lemma StepKeepsMatch(m: Mem, s: Redis, op: Op)
    requires Matches(m, s)
    ensures Matches(MemStep(m, op).0, RedisStep(s, op).0)
  {
    if op.Set? {
      SetKeepsMatch(m, s, op);
    } else if !op.Get? && op.key in s.entries && s.entries[op.key].owner == op.who {
      if op.Delete? { DeleteKeepsMatch(m, s, op); } else { ShareKeepsMatch(m, s, op); }
    }
  }

  /** The one case in which the stores answer differently: reading an entry that was private when set and
      has been shared since, by someone it was shared with. */
  predicate Differs(s: Redis, op: Op) {
    op.Get? && SharedSincePrivate(s, op.key) && op.who != s.entries[op.key].owner && op.who in Allowed(s.acl, op.key)
  }

  lemma GetAgreesExactly(m: Mem, s: Redis, op: Op, scope: Scope)
    requires Matches(m, s) && op.Get? && op.key in s.entries && MetaTells(s, op.key, s.entries[op.key], scope)
    ensures MemStep(m, op).1 == RedisStep(s, op).1 <==> !Differs(s, op)
  {
    assert Allowed(s.acl, op.key) == Allowed(m.acl, op.key);
  }

  /** Matched stores give the same answer to an operation if and only if it is not that case. */
  lemma AnswersAgreeExactly(m: Mem, s: Redis, op: Op)
    requires Matches(m, s)
    ensures MemStep(m, op).1 == RedisStep(s, op).1 <==> !Differs(s, op)
  {
    if op.Get? && op.key in s.entries {
      var scope :| MetaTells(s, op.key, s.entries[op.key], scope);
      GetAgreesExactly(m, s, op, scope);
    }
  }

  // ---- histories ----

  function MemAnswers(m: Mem, ops: seq<Op>): seq<Answer>
    decreases |ops|
  {
    if ops == [] then [] else [MemStep(m, ops[0]).1] + MemAnswers(MemStep(m, ops[0]).0, ops[1..])
  }

  function RedisAnswers(s: Redis, ops: seq<Op>): seq<Answer>
    decreases |ops|
  {
    if ops == [] then [] else [RedisStep(s, ops[0]).1] + RedisAnswers(RedisStep(s, ops[0]).0, ops[1..])
  }

  predicate NeverDiffers(s: Redis, ops: seq<Op>)
    decreases |ops|
  {
    ops == [] || (!Differs(s, ops[0]) && NeverDiffers(RedisStep(s, ops[0]).0, ops[1..]))
  }

  /** Over any history, the answers are the same if and only if that case never comes up. */
  lemma {:induction false} HistoriesAgreeExactly(m: Mem, s: Redis, ops: seq<Op>)
    requires Matches(m, s)
    ensures MemAnswers(m, ops) == RedisAnswers(s, ops) <==> NeverDiffers(s, ops)
    decreases |ops|
  {
    if ops != [] {
      var m', s' := MemStep(m, ops[0]).0, RedisStep(s, ops[0]).0;
      AnswersAgreeExactly(m, s, ops[0]);
      StepKeepsMatch(m, s, ops[0]);
      HistoriesAgreeExactly(m', s', ops[1..]);
      assert MemAnswers(m, ops)[1..] == MemAnswers(m', ops[1..]);
      assert RedisAnswers(s, ops)[1..] == RedisAnswers(s', ops[1..]);
      assert MemAnswers(m, ops)[0] == MemStep(m, ops[0]).1 && RedisAnswers(s, ops)[0] == RedisStep(s, ops[0]).1;
    }
  }

  /** No entry that is private at that moment is ever shared. */
  predicate SharesNoPrivate(m: Mem, ops: seq<Op>)
    decreases |ops|
  {
    ops == [] ||
    ((ops[0].Share? && ops[0].key in m.entries ==> m.entries[ops[0].key].scope != Private) &&
     SharesNoPrivate(MemStep(m, ops[0]).0, ops[1..]))
  }

  ghost predicate NoneStale(s: Redis) {
    forall key | key in s.entries :: !SharedSincePrivate(s, key)
  }

  lemma StaysFresh(m: Mem, s: Redis, op: Op)
    requires Matches(m, s) && NoneStale(s)
    requires op.Share? && op.key in m.entries ==> m.entries[op.key].scope != Private
    ensures NoneStale(RedisStep(s, op).0)
  {
    var s' := RedisStep(s, op).0;
    forall key | key in s'.entries ensures !SharedSincePrivate(s', key) {
      if !(op.Set? && key == op.key) {
        assert key in s.entries && !SharedSincePrivate(s, key);
        var scope :| MetaTells(s, key, s.entries[key], scope);
      }
    }
  }

  /** Over every history that shares no private entry, the two stores give the same answers and denials. */
  lemma {:induction false} StoresAgree(m: Mem, s: Redis, ops: seq<Op>)
    requires Matches(m, s) && NoneStale(s) && SharesNoPrivate(m, ops)
    ensures MemAnswers(m, ops) == RedisAnswers(s, ops)
    decreases |ops|
  {
    if ops != [] {
      AnswersAgreeExactly(m, s, ops[0]);
      StepKeepsMatch(m, s, ops[0]);
      StaysFresh(m, s, ops[0]);
      StoresAgree(MemStep(m, ops[0]).0, RedisStep(s, ops[0]).0, ops[1..]);
    }
  }

  const NEW_MEM := Mem(map[], map[])
  const NEW_REDIS := Redis(map[], map[], map[], map[])

  lemma EmptyStoresMatch()
    ensures Matches(NEW_MEM, NEW_REDIS) && NoneStale(NEW_REDIS)
  {}

  /** From empty stores on, the answers of a whole history agree if and only if no read in it is the one case; a
      history that shares no private entry has no such read. */
  lemma NewStoresAgree(ops: seq<Op>)
    ensures MemAnswers(NEW_MEM, ops) == RedisAnswers(NEW_REDIS, ops) <==> NeverDiffers(NEW_REDIS, ops)
    ensures SharesNoPrivate(NEW_MEM, ops) ==> MemAnswers(NEW_MEM, ops) == RedisAnswers(NEW_REDIS, ops)
  {
    EmptyStoresMatch();
    HistoriesAgreeExactly(NEW_MEM, NEW_REDIS, ops);
    if SharesNoPrivate(NEW_MEM, ops) { StoresAgree(NEW_MEM, NEW_REDIS, ops); }
  }

  /** The exclusion is needed: share a private entry with another agent, and that agent can read it from
      the in-memory store but is denied by the Redis one. */
  lemma SharedPrivateEntryDiffers(key: Key, v: Value, owner: AgentId, friend: AgentId)
    requires owner != friend
    ensures var m0, s0 := Mem(map[], map[]), Redis(map[], map[], map[], map[]);
      var m1, s1 := MemStep(m0, Set(key, v, owner, Private)).0, RedisStep(s0, Set(key, v, owner, Private)).0;
      var m2, s2 := MemStep(m1, Share(key, owner, [friend])).0, RedisStep(s1, Share(key, owner, [friend])).0;
      MemStep(m2, Get(key, friend)).1 == Found(v) && RedisStep(s2, Get(key, friend)).1 == Denied
  {
    assert friend in Listed([friend]);
  }
}
