/** What a list of entry nodes that the caller supplies does. The program does not check it: a node without
    dependencies that is missing never runs, and one that is listed again may be scheduled again. */
module SchedulerEntries {
  import opened Common
  import opened Graph
  import opened SchedulerModel
  import opened SchedulerSafety
  import opened SchedulerStack
  import opened SchedulerRefinement

  ghost predicate IsRoot(g: Dag, r: NodeId) {
    r in g && g[r].deps == {}
  }

  /** How often a node has been scheduled in the entry loop: each call waits for a slot or has begun an attempt. */
  ghost function Calls(s: State, r: NodeId): nat
    requires r in s.attempts
  {
    s.waiting[r] + s.attempts[r]
  }

  // ---- loops inside the entry loop never come to a node without dependencies ----

  ghost predicate InnerLoop(g: Dag, f: Frame) {
    forall x | x in f.rest :: !IsRoot(g, x)
  }

  /** The outermost loop is that over the entries; the others are over dependents. */
  ghost predicate EntryLoop(e: Env, c: Config) {
    Known(e, c.s) && forall i | 0 <= i < |c.stack| - 1 :: InnerLoop(e.g, c.stack[i])
  }

  /** The entries still to come. */
  ghost function Coming(c: Config): seq<NodeId> {
    if c.stack == [] then [] else c.stack[|c.stack| - 1].rest
  }

  lemma DependentsAreNoRoots(e: Env, n: NodeId)
    ensures InnerLoop(e.g, LoopOf(e, n))
  {
    forall x | x in LoopOf(e, n).rest ensures !IsRoot(e.g, x) {
      ListedIs(e.g, e.ids, n, x);
      assert multiset(LoopOf(e, n).rest)[x] > 0;
    }
  }

  lemma NotBlockable(g: Dag, status: map<NodeId, Status>, r: NodeId, n: NodeId)
    requires IsRoot(g, r)
    ensures !Blockable(g, status, r, n)
  {
    if Blockable(g, status, r, n) { var _ := BlockableInv(g, status, r, n); }
  }

  /** The same as far as a node without dependencies is concerned. */
  ghost predicate SameRoot(s: State, s': State, r: NodeId)
    requires r in s.status && r in s.attempts
  {
    && r in s'.status && r in s'.attempts && s'.status[r] == s.status[r] && s'.attempts[r] == s.attempts[r]
    && s'.waiting[r] == s.waiting[r] && s'.inHandler[r] == s.inHandler[r] && s'.backoff[r] == s.backoff[r]
  }

  /** The catch block of another node. */
  lemma CaughtElsewhere(e: Env, s: State, stack: seq<Frame>, x: NodeId, r: NodeId)
    requires Known(e, s) && x in e.g && IsRoot(e.g, r) && r != x
    ensures SameRoot(s, Caught(e, s, stack, x).s, r)
  {
    NotBlockable(e.g, s.status[x := Failed], r, x);
  }

  lemma CalledElsewhere(e: Env, s: State, stack: seq<Frame>, x: NodeId, r: NodeId)
    requires Known(e, s) && x in e.g && IsRoot(e.g, r) && r != x
    ensures SameRoot(s, Called(e, s, stack, x).s, r)
  {
    if e.throws(x, s.attempts[x]) { CaughtElsewhere(e, s, stack, x, r); }
  }

  /** The call of a handler keeps the slots in use and puts at most one loop on top. */
  lemma CalledKeeps(e: Env, s: State, stack: seq<Frame>, x: NodeId)
    requires Known(e, s) && x in e.g
    ensures var c' := Called(e, s, stack, x);
      && Known(e, c'.s) && c'.s.active == s.active && c'.s.running == s.running
      && (c'.stack == stack || c'.stack == [LoopOf(e, x)] + stack)
  {}

  lemma PushedEntryLoop(e: Env, s: State, stack: seq<Frame>, x: NodeId, c': Config)
    requires stack != [] && EntryLoop(e, Config(s, stack)) && Known(e, c'.s)
    requires c'.stack == stack || c'.stack == [LoopOf(e, x)] + stack
    ensures EntryLoop(e, c') && Coming(c') == Coming(Config(s, stack))
  {
    DependentsAreNoRoots(e, x);
    if c'.stack != stack {
      forall i | 0 <= i < |c'.stack| - 1 ensures InnerLoop(e.g, c'.stack[i]) {
        if i > 0 { assert c'.stack[i] == stack[i - 1]; }
      }
    }
  }

  lemma PoppedEntryLoop(e: Env, c: Config)
    requires EntryLoop(e, c) && c.stack != [] && c.stack[0].rest != []
    ensures EntryLoop(e, Config(c.s, Popped(c.stack)))
    ensures Coming(Config(c.s, Popped(c.stack))) == if |c.stack| == 1 then Coming(c)[1..] else Coming(c)
  {
    var p := Popped(c.stack);
    assert forall i | 0 < i < |p| :: p[i] == c.stack[i];
    forall i | 0 <= i < |p| - 1 ensures InnerLoop(e.g, p[i]) { assert InnerLoop(e.g, c.stack[i]); }
  }

  /** A turn keeps the picture, and gives no slot back. */
  lemma TurnKeepsEntryLoop(e: Env, c: Config)
    requires EntryLoop(e, c) && c.stack != []
    ensures var c' := Visited(e, c);
      && EntryLoop(e, c') && c'.s.active >= c.s.active && c'.s.running == c.s.running
      && Coming(c') == if |c.stack| == 1 && c.stack[0].rest != [] then Coming(c)[1..] else Coming(c)
  {
    if c.stack[0].rest == [] {
      EndedEntryLoop(e, c);
    } else {
      PoppedEntryLoop(e, c);
      var x, p := c.stack[0].rest[0], Popped(c.stack);
      if CanExecute(e.g, c.s.status, x) && c.s.active < e.limit { StartedEntryLoop(e, c.s, p, x); }
    }
  }

  lemma EndedEntryLoop(e: Env, c: Config)
    requires EntryLoop(e, c) && c.stack != [] && c.stack[0].rest == []
    ensures var c' := Config(c.s, c.stack[1..]); EntryLoop(e, c') && Coming(c') == Coming(c)
  {
    assert forall i | 0 <= i < |c.stack[1..]| :: c.stack[1..][i] == c.stack[i + 1];
  }

  lemma StartedEntryLoop(e: Env, s: State, stack: seq<Frame>, x: NodeId)
    requires stack != [] && EntryLoop(e, Config(s, stack)) && x in e.g
    ensures var c' := Called(e, Begin(s, x), stack, x);
      && EntryLoop(e, c') && Coming(c') == Coming(Config(s, stack))
      && c'.s.active >= s.active && c'.s.running == s.running
  {
    CalledKeeps(e, Begin(s, x), stack, x);
    PushedEntryLoop(e, s, stack, x, Called(e, Begin(s, x), stack, x));
  }

  /** The entry loop is about to take `r`, and `r` may run. */
  ghost predicate Takes(c: Config, r: NodeId)
    requires r in c.s.status
  {
    |c.stack| == 1 && c.stack[0].rest != [] && c.stack[0].rest[0] == r && c.s.status[r] == Pending
  }

  /** Any other turn leaves a node without dependencies as it is. */
  lemma OtherTurn(e: Env, c: Config, r: NodeId)
    requires EntryLoop(e, c) && c.stack != [] && IsRoot(e.g, r) && !Takes(c, r)
    ensures SameRoot(c.s, Visited(e, c).s, r)
  {
    if c.stack[0].rest != [] && CanExecute(e.g, c.s.status, c.stack[0].rest[0]) {
      var x := c.stack[0].rest[0];
      assert |c.stack| > 1 ==> InnerLoop(e.g, c.stack[0]);
      assert x != r;
      if c.s.active < e.limit { CalledElsewhere(e, Begin(c.s, x), Popped(c.stack), x, r); }
    }
  }

  /** A node without dependencies whose handler throws at once on its first attempt and which may try again. */
  ghost predicate BacksOffAtOnce(e: Env, r: NodeId)
    requires r in e.g
  {
    e.throws(r, 1) && e.g[r].maxAttempts > 1
  }

  /** The turn that takes `r`. */
  lemma TakingTurn(e: Env, c: Config, r: NodeId)
    requires EntryLoop(e, c) && IsRoot(e.g, r) && Takes(c, r)
    ensures var s' := Visited(e, c).s;
      && Calls(s', r) == Calls(c.s, r) + 1
      && (c.s.active >= e.limit ==> s'.status[r] == Pending && s'.attempts[r] == c.s.attempts[r])
      && (c.s.active < e.limit && c.s.attempts[r] == 0 && c.s.running && e.g[r].maxAttempts >= 1 ==>
           (s'.status[r] == Pending <==> BacksOffAtOnce(e, r)))
  {
    var s1, p := Begin(c.s, r), Popped(c.stack);
    assert CanExecute(e.g, c.s.status, r);
    if c.s.active < e.limit {
      NotBlockable(e.g, s1.status[r := Failed], r, r);
    }
  }

  lemma CountTail(list: seq<NodeId>, r: NodeId)
    requires list != []
    ensures multiset(list)[r] == multiset(list[1..])[r] + if list[0] == r then 1 else 0
  {
    assert list == [list[0]] + list[1..];
    assert multiset(list) == multiset{list[0]} + multiset(list[1..]);
  }

  // ---- to the end of the entry loop ----

  /** After `k` turns no loop is left. */
  ghost predicate EndsIn(e: Env, c: Config, k: nat, s: State) {
    Turns(e, c, k, Config(s, []))
  }

  lemma EndsNext(e: Env, c: Config, k: nat, s: State)
    requires EndsIn(e, c, k, s) && (k > 0 || c.stack != [])
    ensures k > 0 && Known(e, c.s) && c.stack != [] && EndsIn(e, Visited(e, c), k - 1, s)
  {}

  /** A node that is no longer pending is passed over. */
  lemma {:induction false} PassedOver(e: Env, c: Config, k: nat, s: State, r: NodeId)
    requires EntryLoop(e, c) && IsRoot(e.g, r) && c.s.status[r] != Pending && EndsIn(e, c, k, s)
    ensures r in s.attempts && Calls(s, r) == Calls(c.s, r)
    decreases k
  {
    if k > 0 {
      EndsNext(e, c, k, s);
      TurnKeepsEntryLoop(e, c);
      OtherTurn(e, c, r);
      PassedOver(e, Visited(e, c), k - 1, s, r);
    }
  }

  /** A node that is not mentioned again is not scheduled again. */
  lemma {:induction false} NotMentioned(e: Env, c: Config, k: nat, s: State, r: NodeId)
    requires EntryLoop(e, c) && IsRoot(e.g, r) && r !in Coming(c) && EndsIn(e, c, k, s)
    ensures r in s.attempts && SameRoot(c.s, s, r)
    decreases k
  {
    if k > 0 {
      EndsNext(e, c, k, s);
      NotMentionedNow(e, c, r);
      NotMentioned(e, Visited(e, c), k - 1, s, r);
    }
  }

  lemma NotMentionedNow(e: Env, c: Config, r: NodeId)
    requires EntryLoop(e, c) && c.stack != [] && IsRoot(e.g, r) && r !in Coming(c)
    ensures EntryLoop(e, Visited(e, c)) && SameRoot(c.s, Visited(e, c).s, r) && r !in Coming(Visited(e, c))
  {
    TurnKeepsEntryLoop(e, c);
    OtherTurn(e, c, r);
  }

  /** Scheduling is never taken back. */
  lemma {:induction false} CallsGrow(e: Env, c: Config, k: nat, s: State, r: NodeId)
    requires EntryLoop(e, c) && IsRoot(e.g, r) && EndsIn(e, c, k, s)
    ensures r in s.attempts && Calls(s, r) >= Calls(c.s, r)
    decreases k
  {
    if k > 0 {
      EndsNext(e, c, k, s);
      TurnKeepsEntryLoop(e, c);
      if Takes(c, r) { TakingTurn(e, c, r); } else { OtherTurn(e, c, r); }
      CallsGrow(e, Visited(e, c), k - 1, s, r);
    }
  }

  /** A pending node that is mentioned again is scheduled again. */
  lemma {:induction false} MentionedAgain(e: Env, c: Config, k: nat, s: State, r: NodeId)
    requires EntryLoop(e, c) && IsRoot(e.g, r) && c.s.status[r] == Pending && EndsIn(e, c, k, s)
    ensures r in s.attempts && (multiset(Coming(c))[r] > 0 ==> Calls(s, r) > Calls(c.s, r))
    decreases k
  {
    if k > 0 {
      EndsNext(e, c, k, s);
      if Takes(c, r) {
        TakenNow(e, c, k, s, r);
      } else {
        NotTaken(e, c, r);
        MentionedAgain(e, Visited(e, c), k - 1, s, r);
      }
    }
  }

  lemma TakenNow(e: Env, c: Config, k: nat, s: State, r: NodeId)
    requires EntryLoop(e, c) && IsRoot(e.g, r) && Takes(c, r) && EndsIn(e, c, k, s)
    ensures r in s.attempts && Calls(s, r) > Calls(c.s, r)
  {
    EndsNext(e, c, k, s);
    TurnKeepsEntryLoop(e, c);
    TakingTurn(e, c, r);
    CallsGrow(e, Visited(e, c), k - 1, s, r);
  }

  lemma NotTaken(e: Env, c: Config, r: NodeId)
    requires EntryLoop(e, c) && c.stack != [] && IsRoot(e.g, r) && c.s.status[r] == Pending && !Takes(c, r)
    ensures var c' := Visited(e, c);
      EntryLoop(e, c') && SameRoot(c.s, c'.s, r) && multiset(Coming(c'))[r] == multiset(Coming(c))[r]
  {
    TurnKeepsEntryLoop(e, c);
    OtherTurn(e, c, r);
    if |c.stack| == 1 && c.stack[0].rest != [] { CountTail(Coming(c), r); }
  }

  /** With no slot left, a pending node is queued at every mention. */
  lemma {:induction false} QueuedAtEveryMention(e: Env, c: Config, k: nat, s: State, r: NodeId)
    requires EntryLoop(e, c) && IsRoot(e.g, r) && c.s.status[r] == Pending && c.s.active >= e.limit
    requires EndsIn(e, c, k, s)
    ensures r in s.attempts && s.attempts[r] == c.s.attempts[r]
    ensures s.waiting[r] == c.s.waiting[r] + multiset(Coming(c))[r]
    decreases k
  {
    if k > 0 {
      EndsNext(e, c, k, s);
      TurnKeepsEntryLoop(e, c);
      if |c.stack| == 1 && c.stack[0].rest != [] { CountTail(Coming(c), r); }
      if Takes(c, r) { TakingTurn(e, c, r); } else { OtherTurn(e, c, r); }
      QueuedAtEveryMention(e, Visited(e, c), k - 1, s, r);
    }
  }

  /** The entry loop stands at the first mention of `r`. */
  ghost predicate AtFirstMention(e: Env, entries: seq<NodeId>, f: nat, c: Config) {
    && f < |entries| && EntryLoop(e, c) && |c.stack| == 1 && Coming(c) == entries[f..] && c.s.running
    && entries[f] in c.s.status && c.s.status[entries[f]] == Pending && Calls(c.s, entries[f]) == 0
  }

  /** The exact condition, for all handlers: a node without dependencies is scheduled more than once by the entry loop
      if and only if it is mentioned again after its first mention, and either no slot was free at the first mention
      or its handler throws at once and it may retry. Without a free slot it is scheduled once per mention. */
  lemma EntryScheduledAgain(e: Env, entries: seq<NodeId>, f: nat, c: Config, s: State)
    requires AtFirstMention(e, entries, f, c) && IsRoot(e.g, entries[f]) && e.g[entries[f]].maxAttempts >= 1
    requires Stretch(e, c, Config(s, []))
    ensures entries[f] in s.attempts
    ensures var r := entries[f];
      && (Calls(s, r) > 1 <==> r in entries[f + 1..] && (c.s.active >= e.limit || BacksOffAtOnce(e, r)))
      && Calls(s, r) >= 1
      && (c.s.active >= e.limit ==> s.attempts[r] == 0 && s.waiting[r] == multiset(entries[f..])[r])
  {
    var k: nat :| Turns(e, c, k, Config(s, []));
    assert EndsIn(e, c, k, s);
    var r, c1 := entries[f], Visited(e, c);
    assert entries[f..][1..] == entries[f + 1..];
    EndsNext(e, c, k, s);
    TurnKeepsEntryLoop(e, c);
    TakingTurn(e, c, r);
    AfterFirstMention(e, c1, k - 1, s, r);
    if c.s.active >= e.limit { QueuedAtEveryMention(e, c, k, s, r); }
  }

  lemma AfterFirstMention(e: Env, c: Config, k: nat, s: State, r: NodeId)
    requires EntryLoop(e, c) && IsRoot(e.g, r) && Calls(c.s, r) == 1 && EndsIn(e, c, k, s)
    ensures r in s.attempts && Calls(s, r) >= 1
    ensures Calls(s, r) > 1 <==> r in Coming(c) && c.s.status[r] == Pending
  {
    if c.s.status[r] != Pending {
      PassedOver(e, c, k, s, r);
    } else if r in Coming(c) {
      MentionedAgain(e, c, k, s, r);
    } else {
      NotMentioned(e, c, k, s, r);
    }
  }

  // ---- every loop ends ----

  lemma CalledPending(e: Env, s: State, stack: seq<Frame>, x: NodeId)
    requires Known(e, s) && x in e.g && s.status[x] == Running
    ensures var c' := Called(e, s, stack, x);
      || (c'.stack == stack && PendingSet(c'.s.status) <= PendingSet(s.status) + {x})
      || PendingSet(c'.s.status) <= PendingSet(s.status)
  {}

  /** A turn leaves fewer pending nodes, or shorter loops. */
  lemma TurnShortens(e: Env, c: Config)
    requires Known(e, c.s) && c.stack != []
    ensures var c' := Visited(e, c);
      && Known(e, c'.s)
      && (PendingSet(c'.s.status) < PendingSet(c.s.status)
        || (PendingSet(c'.s.status) <= PendingSet(c.s.status) && Size(c'.stack) < Size(c.stack)))
  {
    SizeFalls(c.stack);
    if c.stack[0].rest != [] && CanExecute(e.g, c.s.status, c.stack[0].rest[0]) && c.s.active < e.limit {
      var x, p := c.stack[0].rest[0], Popped(c.stack);
      var s1 := Begin(c.s, x);
      assert PendingSet(s1.status) == PendingSet(c.s.status) - {x};
      CalledKeeps(e, s1, p, x);
      CalledPending(e, s1, p, x);
    }
  }

  /** Every scheduling loop, with the loops inside it, comes to its end. */
  lemma {:induction false} LoopsEnd(e: Env, c: Config) returns (s: State)
    requires Known(e, c.s)
    ensures Stretch(e, c, Config(s, []))
    decreases PendingSet(c.s.status), Size(c.stack)
  {
    if c.stack == [] {
      s := c.s;
      NoTurn(e, c);
    } else {
      TurnShortens(e, c);
      s := LoopsEnd(e, Visited(e, c));
      NoTurn(e, c);
      StretchTurn(e, c, c, Config(s, []));
    }
  }

  /** Turns are determined, so the way to the end leads through what comes before it. */
  lemma {:induction false} TurnsThrough(e: Env, c: Config, j: nat, c1: Config, k: nat, s: State)
    requires Turns(e, c, j, c1) && c1.stack != [] && Turns(e, c, k, Config(s, []))
    ensures j <= k && Turns(e, c1, k - j, Config(s, []))
    decreases j
  {
    if j > 0 { TurnsThrough(e, Visited(e, c), j - 1, c1, k - 1, s); }
  }

  lemma StretchThrough(e: Env, c: Config, c1: Config, s: State)
    requires Stretch(e, c, c1) && c1.stack != [] && Stretch(e, c, Config(s, []))
    ensures Stretch(e, c1, Config(s, []))
  {
    var j: nat :| Turns(e, c, j, c1);
    var k: nat :| Turns(e, c, k, Config(s, []));
    TurnsThrough(e, c, j, c1, k, s);
  }

  // ---- the first mention is always reached ----

  /** The entry loop is on its way to the first mention of `entries[f]`, having passed `k` entries. */
  ghost predicate OnTheWay(e: Env, entries: seq<NodeId>, f: nat, k: nat, c: Config) {
    && k <= f < |entries| && EntryLoop(e, c) && Coming(c) == entries[k..] && c.s.running
    && entries[f] in c.s.status && c.s.status[entries[f]] == Pending && Calls(c.s, entries[f]) == 0
  }

  lemma TurnOnTheWay(e: Env, entries: seq<NodeId>, f: nat, k: nat, c: Config) returns (l: nat)
    requires OnTheWay(e, entries, f, k, c) && IsRoot(e.g, entries[f]) && entries[f] !in entries[..f]
    requires c.stack != [] && !(|c.stack| == 1 && k == f)
    ensures OnTheWay(e, entries, f, l, Visited(e, c))
  {
    var r := entries[f];
    l := if |c.stack| == 1 then k + 1 else k;
    assert Coming(c)[1..] == entries[k + 1..];
    assert k < f ==> entries[k] == entries[..f][k];
    TurnKeepsEntryLoop(e, c);
    OtherTurn(e, c, r);
  }

  lemma {:induction false} WayToFirstMention(e: Env, entries: seq<NodeId>, f: nat, k: nat, c: Config)
    returns (c': Config)
    requires OnTheWay(e, entries, f, k, c) && IsRoot(e.g, entries[f]) && entries[f] !in entries[..f]
    ensures Stretch(e, c, c') && AtFirstMention(e, entries, f, c')
    decreases PendingSet(c.s.status), Size(c.stack)
  {
    assert Coming(c) != [];
    if |c.stack| == 1 && k == f {
      c' := c;
      NoTurn(e, c);
    } else {
      TurnShortens(e, c);
      var l := TurnOnTheWay(e, entries, f, k, c);
      c' := WayToFirstMention(e, entries, f, l, Visited(e, c));
      NoTurn(e, c);
      StretchTurn(e, c, c, c');
    }
  }

  /** The exact condition over whole entry loops, for any list and all handlers: the loop comes to the first mention of
      a node without dependencies, and schedules it more than once if and only if there is a later mention and either
      no slot is free at the first or its handler throws at once and it may retry. */
  lemma EntryScheduledExactly(e: Env, entries: seq<NodeId>, f: nat, s: State) returns (c: Config)
    requires f < |entries| && entries[f] !in entries[..f]
    requires IsRoot(e.g, entries[f]) && e.g[entries[f]].maxAttempts >= 1
    requires Stretch(e, Start(e, entries), Config(s, []))
    ensures AtFirstMention(e, entries, f, c) && Stretch(e, Start(e, entries), c)
    ensures entries[f] in s.attempts && Calls(s, entries[f]) >= 1
    ensures Calls(s, entries[f]) > 1 <==>
            entries[f] in entries[f + 1..] && (c.s.active >= e.limit || BacksOffAtOnce(e, entries[f]))
  {
    assert entries[0..] == entries;
    assert OnTheWay(e, entries, f, 0, Start(e, entries));
    c := WayToFirstMention(e, entries, f, 0, Start(e, entries));
    StretchThrough(e, Start(e, entries), c, s);
    EntryScheduledAgain(e, entries, f, c, s);
  }

  // ---- handlers that suspend: which entries find a slot ----

  /** No entry throws at once on its first attempt. */
  ghost predicate Suspends(e: Env) {
    forall r | IsRoot(e.g, r) :: !e.throws(r, 1)
  }

  function RootsIn(g: Dag, list: seq<NodeId>): set<NodeId> {
    set x | x in list && x in g && g[x].deps == {}
  }

  /** The slots in use after `n` different nodes have asked for one. */
  function Used(limit: int, n: nat): int {
    if limit <= 0 then 0 else if n < limit then n else limit
  }

  /** After the first `k` entries: the first different ones have the slots, as far as there are any. */
  ghost predicate AfterEntries(e: Env, entries: seq<NodeId>, k: nat, s: State)
    requires k <= |entries|
  {
    && Known(e, s) && s.running && s.active == Used(e.limit, |RootsIn(e.g, entries[..k])|)
    && (forall x | x in e.g :: EntryNode(e, entries[..k], s, x))
    && (|RootsIn(e.g, entries[..k])| <= e.limit ==>
         forall x | x in RootsIn(e.g, entries[..k]) :: s.status[x] == Running)
  }

  ghost predicate EntryNode(e: Env, passed: seq<NodeId>, s: State, x: NodeId)
    requires Known(e, s) && x in e.g
  {
    && (s.status[x] == Pending || (s.status[x] == Running && IsRoot(e.g, x)))
    && (s.status[x] == Pending ==> s.attempts[x] == 0)
    && (x !in passed ==> s.status[x] == Pending && s.waiting[x] == 0)
  }

  lemma NothingSatisfied(e: Env, entries: seq<NodeId>, k: nat, s: State, x: NodeId)
    requires k <= |entries| && AfterEntries(e, entries, k, s)
    ensures CanExecute(e.g, s.status, x) <==> IsRoot(e.g, x) && s.status[x] == Pending
  {
    forall d ensures !Satisfied(e.g, s.status, d) {
      if d in e.g { assert EntryNode(e, entries[..k], s, d); }
    }
  }

  lemma RootsNext(g: Dag, entries: seq<NodeId>, k: nat)
    requires k < |entries|
    ensures RootsIn(g, entries[..k + 1])
         == RootsIn(g, entries[..k]) + (if IsRoot(g, entries[k]) then {entries[k]} else {})
    ensures forall x :: x in entries[..k + 1] <==> x in entries[..k] || x == entries[k]
  {
    assert entries[..k + 1] == entries[..k] + [entries[k]];
  }

  /** One entry more. */
  lemma NextEntry(e: Env, entries: seq<NodeId>, k: nat, s: State)
    requires Suspends(e) && k < |entries| && AfterEntries(e, entries, k, s)
    ensures var c' := Visited(e, Config(s, [Frame(None, entries[k..])]));
      c'.stack == [Frame(None, entries[k + 1..])] && AfterEntries(e, entries, k + 1, c'.s)
  {
    var x := entries[k];
    assert entries[k..][1..] == entries[k + 1..];
    NothingSatisfied(e, entries, k, s, x);
    RootsNext(e.g, entries, k);
    if !IsRoot(e.g, x) || s.status[x] != Pending {
      PassEntry(e, entries, k, s);
    } else if s.active >= e.limit {
      QueueEntry(e, entries, k, s);
    } else {
      BeginEntry(e, entries, k, s);
    }
  }

  lemma PassEntry(e: Env, entries: seq<NodeId>, k: nat, s: State)
    requires k < |entries| && AfterEntries(e, entries, k, s)
    requires !IsRoot(e.g, entries[k]) || s.status[entries[k]] != Pending
    ensures AfterEntries(e, entries, k + 1, s)
  {
    var x := entries[k];
    RootsNext(e.g, entries, k);
    if IsRoot(e.g, x) {
      assert EntryNode(e, entries[..k], s, x);
      assert RootsIn(e.g, entries[..k + 1]) == RootsIn(e.g, entries[..k]);
    }
    forall y | y in e.g ensures EntryNode(e, entries[..k + 1], s, y) { assert EntryNode(e, entries[..k], s, y); }
  }

  lemma OneMore(before: set<NodeId>, x: NodeId)
    ensures |before + {x}| == |before| + if x in before then 0 else 1
  {
    if x in before { assert before + {x} == before; }
  }

  lemma QueueEntry(e: Env, entries: seq<NodeId>, k: nat, s: State)
    requires k < |entries| && AfterEntries(e, entries, k, s)
    requires IsRoot(e.g, entries[k]) && s.status[entries[k]] == Pending && s.active >= e.limit
    ensures AfterEntries(e, entries, k + 1, s.(waiting := s.waiting + multiset{entries[k]}))
  {
    var x, before := entries[k], RootsIn(e.g, entries[..k]);
    RootsNext(e.g, entries, k);
    assert x in before ==> |before| > e.limit;
    OneMore(before, x);
    var s' := s.(waiting := s.waiting + multiset{x});
    forall y | y in e.g ensures EntryNode(e, entries[..k + 1], s', y) { assert EntryNode(e, entries[..k], s, y); }
  }

  lemma BeginEntry(e: Env, entries: seq<NodeId>, k: nat, s: State)
    requires k < |entries| && AfterEntries(e, entries, k, s)
    requires IsRoot(e.g, entries[k]) && s.status[entries[k]] == Pending && s.active < e.limit
    ensures s.attempts[entries[k]] == 0 && AfterEntries(e, entries, k + 1, Begin(s, entries[k]))
  {
    var x, before := entries[k], RootsIn(e.g, entries[..k]);
    RootsNext(e.g, entries, k);
    assert EntryNode(e, entries[..k], s, x);
    assert |before| <= e.limit && x !in before;
    OneMore(before, x);
    var s' := Begin(s, x);
    forall y | y in e.g ensures EntryNode(e, entries[..k + 1], s', y) { assert EntryNode(e, entries[..k], s, y); }
  }

  lemma StartIsAfterNone(e: Env, entries: seq<NodeId>)
    ensures AfterEntries(e, entries, 0, Start(e, entries).s)
  {
    assert RootsIn(e.g, entries[..0]) == {};
  }

  lemma {:induction false} AfterSome(e: Env, entries: seq<NodeId>, k: nat) returns (s: State)
    requires Suspends(e) && k <= |entries|
    ensures AfterEntries(e, entries, k, s)
    ensures Stretch(e, Start(e, entries), Config(s, [Frame(None, entries[k..])]))
  {
    if k == 0 {
      s := Start(e, entries).s;
      StartIsAfterNone(e, entries);
      NoTurn(e, Start(e, entries));
      assert entries[0..] == entries;
    } else {
      var t := AfterSome(e, entries, k - 1);
      NextEntry(e, entries, k - 1, t);
      var c := Config(t, [Frame(None, entries[k - 1..])]);
      s := Visited(e, c).s;
      NoTurn(e, Visited(e, c));
      StretchTurn(e, Start(e, entries), c, Visited(e, c));
    }
  }

  /** Scheduled once with a slot free at the first mention, and otherwise once per mention. */
  ghost predicate ScheduledAs(e: Env, entries: seq<NodeId>, f: nat, s: State)
    requires f < |entries|
  {
    var r, enough := entries[f], |RootsIn(e.g, entries[..f])| < e.limit;
    && r in s.attempts && Calls(s, r) == (if enough then 1 else multiset(entries)[r])
    && (!enough ==> s.attempts[r] == 0)
    && (Calls(s, r) > 1 <==> multiset(entries)[r] > 1 && !enough)
  }

  /** The exact condition on the list, for handlers that suspend: a node without dependencies is scheduled once by the
      entry loop if fewer different ones than there are slots come before its first mention, and otherwise as often
      as it is mentioned. */
  lemma EntriesScheduled(e: Env, entries: seq<NodeId>, f: nat, s: State)
    requires Suspends(e) && f < |entries| && entries[f] !in entries[..f]
    requires IsRoot(e.g, entries[f]) && e.g[entries[f]].maxAttempts >= 1
    requires Stretch(e, Start(e, entries), Config(s, []))
    ensures ScheduledAs(e, entries, f, s)
  {
    var t := AfterSome(e, entries, f);
    var c := Config(t, [Frame(None, entries[f..])]);
    StretchThrough(e, Start(e, entries), c, s);
    FromFirstMention(e, entries, f, c, s);
  }

  lemma FromFirstMention(e: Env, entries: seq<NodeId>, f: nat, c: Config, s: State)
    requires Suspends(e) && f < |entries| && entries[f] !in entries[..f]
    requires IsRoot(e.g, entries[f]) && e.g[entries[f]].maxAttempts >= 1
    requires AfterEntries(e, entries, f, c.s) && c.stack == [Frame(None, entries[f..])]
    requires Stretch(e, c, Config(s, []))
    ensures ScheduledAs(e, entries, f, s)
  {
    FirstMentionIsReached(e, entries, f, c.s);
    EntryScheduledAgain(e, entries, f, c, s);
    MentionsFrom(entries, f);
  }

  lemma FirstMentionIsReached(e: Env, entries: seq<NodeId>, f: nat, s: State)
    requires f < |entries| && AfterEntries(e, entries, f, s) && entries[f] in e.g && entries[f] !in entries[..f]
    ensures AtFirstMention(e, entries, f, Config(s, [Frame(None, entries[f..])]))
    ensures s.active >= e.limit <==> |RootsIn(e.g, entries[..f])| >= e.limit
  {
    assert EntryNode(e, entries[..f], s, entries[f]);
  }

  lemma MentionsFrom(entries: seq<NodeId>, f: nat)
    requires f < |entries| && entries[f] !in entries[..f]
    ensures multiset(entries[f..])[entries[f]] == multiset(entries)[entries[f]]
    ensures multiset(entries)[entries[f]] > 1 <==> entries[f] in entries[f + 1..]
  {
    var r := entries[f];
    assert entries == entries[..f] + entries[f..];
    assert multiset(entries) == multiset(entries[..f]) + multiset(entries[f..]);
    assert multiset(entries[..f])[r] == 0;
    assert entries[f..][1..] == entries[f + 1..];
    CountTail(entries[f..], r);
  }

  // ---- a doubled entry, with one slot, with slots enough, and with a handler that throws ----

  /** Two nodes without dependencies, allowed the given number of attempts. */
  function Pair(a: NodeId, b: NodeId, tries: nat): Dag {
    map[a := Spec({}, tries, false), b := Spec({}, tries, false)]
  }

  function PairEnv(a: NodeId, b: NodeId, tries: nat, limit: int, throws: bool): Env {
    Env(Pair(a, b, tries), [a, b], limit, (n: NodeId, k: nat) => true, (n: NodeId, k: nat) => throws && k == 1)
  }

  /** With one slot, which `b` takes, the two mentions of `a` both wait. */
  lemma DoubledEntryWaitsTwice(a: NodeId, b: NodeId) returns (s: State)
    requires a != b
    ensures var e := PairEnv(a, b, 1, 1, false);
      Stretch(e, Start(e, [b, a, a]), Config(s, [])) && s.waiting[a] == 2
  {
    var e := PairEnv(a, b, 1, 1, false);
    s := LoopsEnd(e, Start(e, [b, a, a]));
    assert [b, a, a][..1] == [b];
    assert RootsIn(e.g, [b]) == {b};
    EntriesScheduled(e, [b, a, a], 1, s);
  }

  /** With slots enough, `a` is running when the loop comes to it again. */
  lemma DoubledEntryBeginsOnce(a: NodeId, b: NodeId) returns (s: State)
    requires a != b
    ensures var e := PairEnv(a, b, 1, 10, false);
      Stretch(e, Start(e, [a, a]), Config(s, [])) && a in s.attempts && Calls(s, a) == 1
  {
    var e := PairEnv(a, b, 1, 10, false);
    s := LoopsEnd(e, Start(e, [a, a]));
    assert RootsIn(e.g, [a, a][..0]) == {};
    EntriesScheduled(e, [a, a], 0, s);
  }

  /** With slots enough but a handler that throws at once, `a` is pending again when the loop comes back to it. */
  lemma DoubledEntryThrows(a: NodeId, b: NodeId) returns (s: State)
    requires a != b
    ensures var e := PairEnv(a, b, 2, 10, true);
      Stretch(e, Start(e, [a, a]), Config(s, [])) && a in s.attempts && Calls(s, a) > 1
  {
    var e, entries := PairEnv(a, b, 2, 10, true), [a, a];
    s := LoopsEnd(e, Start(e, entries));
    assert entries[0..] == entries && a in entries[1..];
    assert AtFirstMention(e, entries, 0, Start(e, entries));
    EntryScheduledAgain(e, entries, 0, Start(e, entries), s);
  }

  // ---- a node without dependencies that is not listed ----

  /** Nothing refers to `r` and it has not begun. */
  ghost predicate Forgotten(c: Config, r: NodeId) {
    && r in c.s.status && c.s.status[r] == Pending && Quiet(c.s, r)
    && forall f | f in c.stack :: r !in f.rest
  }

  lemma ForgottenWhenCalled(e: Env, s: State, stack: seq<Frame>, x: NodeId, r: NodeId)
    requires Known(e, s) && x in e.g && IsRoot(e.g, r) && r != x && Forgotten(Config(s, stack), r)
    ensures Forgotten(Called(e, s, stack, x), r) && Forgotten(Caught(e, s, stack, x), r)
  {
    CaughtElsewhere(e, s, stack, x, r);
    DependentsAreNoRoots(e, x);
  }

  lemma ForgottenByTurn(e: Env, c: Config, r: NodeId)
    requires Known(e, c.s) && c.stack != [] && IsRoot(e.g, r) && Forgotten(c, r)
    ensures Forgotten(Visited(e, c), r)
  {
    if c.stack[0].rest != [] {
      var x, p := c.stack[0].rest[0], Popped(c.stack);
      assert c.stack[0] in c.stack;
      assert Forgotten(Config(c.s, p), r);
      if CanExecute(e.g, c.s.status, x) && c.s.active < e.limit { ForgottenWhenCalled(e, Begin(c.s, x), p, x, r); }
    }
  }

  lemma ForgottenByResolving(e: Env, s: State, n: NodeId, r: NodeId)
    requires IsRoot(e.g, r) && r != n && Forgotten(Config(s, []), r)
    ensures Forgotten(Config(Leave(s, n, Completed), [LoopOf(e, n)]), r)
  {
    DependentsAreNoRoots(e, n);
  }

  /** A suspended call that begins an attempt is one of another node. */
  lemma ForgottenByBeginning(e: Env, c: Config, a: Action, r: NodeId)
    requires IsRoot(e.g, r) && Forgotten(c, r) && Known(e, c.s) && Possible(e, c, Async(a))
    requires a.Acquire? || a.Reacquire?
    ensures Forgotten(After(e, c, Async(a)), r)
  {
    if a.n in e.g { ForgottenWhenCalled(e, Apply(e.g, c.s, a), [], a.n, r); }
  }

  /** Nothing that happens brings a forgotten node back: it depends on nothing that could end. */
  lemma ForgottenStays(e: Env, c: Config, v: Event, c': Config, r: NodeId)
    requires IsRoot(e.g, r) && Forgotten(c, r) && Moves(e, c, v, c')
    ensures Forgotten(c', r)
  {
    if v.Visit? {
      ForgottenByTurn(e, c, r);
    } else if v.a.Acquire? || v.a.Reacquire? {
      ForgottenByBeginning(e, c, v.a, r);
    } else if v.a.Resolve? {
      ForgottenByResolving(e, c.s, v.a.n, r);
    } else if v.a.Reject? && v.a.n in e.g {
      ForgottenWhenCalled(e, c.s, [], v.a.n, r);
    }
  }

  /** A node without dependencies that is missing from the entry nodes never runs, in any run. */
  lemma {:induction false} MissingRootNeverRuns(e: Env, entries: seq<NodeId>, events: seq<Event>,
                                               configs: seq<Config>, k: nat, r: NodeId)
    requires IsRoot(e.g, r) && r !in entries && IsStackRun(e, entries, events, configs) && k <= |events|
    ensures Forgotten(configs[k], r) && !AllDone(e.g, configs[k].s)
  {
    if k > 0 {
      MissingRootNeverRuns(e, entries, events, configs, k - 1, r);
      assert Moves(e, configs[k - 1], events[k - 1], configs[(k - 1) + 1]);
      ForgottenStays(e, configs[k - 1], events[k - 1], configs[k], r);
    }
  }

  /** Only a list that holds every node without dependencies lets a run complete. */
  lemma EntriesMustBeRoots(e: Env, entries: seq<NodeId>, events: seq<Event>, configs: seq<Config>)
    requires IsStackRun(e, entries, events, configs) && AllDone(e.g, configs[|events|].s)
    ensures forall r | IsRoot(e.g, r) :: r in entries
  {
    forall r | IsRoot(e.g, r) ensures r in entries {
      if r !in entries { MissingRootNeverRuns(e, entries, events, configs, |events|, r); }
    }
  }
}
