/** Whole runs of the scheduler whose handlers may throw at once: without a shortcut they have everything that
    was proved of runs with asynchronous handlers. */
module SchedulerStackRuns {
  import opened Graph
  import opened SchedulerModel
  import opened SchedulerSafety
  import opened SchedulerConfluence
  import opened SchedulerProgress
  import opened SchedulerDeadlock
  import opened SchedulerStack
  import opened SchedulerRefinement

  lemma {:induction false} StackRunInv(e: Env, rank: map<NodeId, nat>, entries: seq<NodeId>, throwers: set<NodeId>,
                                      events: seq<Event>, configs: seq<Config>, k: nat)
    requires Sound(e, rank, entries) && OnlyThrow(e, throwers, GoesOn(events)) && NoShortcut(e.g, e.ids, throwers)
    requires IsStackRun(e, entries, events, configs) && k <= |events|
    ensures StackInv(e, throwers, configs[k]) && (GoesOn(events) ==> configs[k].s.running)
  {
    if k == 0 {
      StartKeeps(e, rank, entries, throwers);
    } else {
      StackRunInv(e, rank, entries, throwers, events, configs, k - 1);
      assert Moves(e, configs[k - 1], events[k - 1], configs[(k - 1) + 1]);
      var acts := EventKeeps(e, rank, entries, throwers, configs[k - 1], events[k - 1], configs[k]);
      if GoesOn(events) {
        FollowsFalls(e, rank, entries, Abs(e.g, configs[k - 1].s), acts, Abs(e.g, configs[k].s));
      }
    }
  }

  lemma {:induction false} RunFollows(e: Env, entries: seq<NodeId>, actions: seq<Action>, states: seq<State>,
                                     acts: seq<Action>, t: State)
    returns (actions': seq<Action>, states': seq<State>)
    requires IsRun(e.g, e.limit, Outcomes(e), entries, actions, states)
    requires Follows(e, states[|actions|], acts, t)
    ensures IsRun(e.g, e.limit, Outcomes(e), entries, actions', states') && states'[|actions'|] == t
    decreases |acts|
  {
    if acts == [] {
      actions', states' := actions, states;
    } else {
      RunOn(e.g, e.limit, Outcomes(e), entries, actions, states, acts[0]);
      var next := Apply(e.g, states[|actions|], acts[0]);
      actions', states' := RunFollows(e, entries, actions + [acts[0]], states + [next], acts[1..], t);
    }
  }

  /** Refinement: without a shortcut, every run with handlers that throw at once is followed by a run with
      asynchronous handlers and the same outcomes. */
  lemma {:induction false} Refines(e: Env, rank: map<NodeId, nat>, entries: seq<NodeId>, throwers: set<NodeId>,
                                  events: seq<Event>, configs: seq<Config>, k: nat)
    returns (actions: seq<Action>, states: seq<State>)
    requires Sound(e, rank, entries) && OnlyThrow(e, throwers, GoesOn(events)) && NoShortcut(e.g, e.ids, throwers)
    requires IsStackRun(e, entries, events, configs) && k <= |events|
    ensures IsRun(e.g, e.limit, Outcomes(e), entries, actions, states)
    ensures states[|actions|] == Abs(e.g, configs[k].s)
    decreases k
  {
    if k == 0 {
      StartKeeps(e, rank, entries, throwers);
      actions, states := [], [Init(e.g, entries)];
    } else {
      actions, states := Refines(e, rank, entries, throwers, events, configs, k - 1);
      StackRunInv(e, rank, entries, throwers, events, configs, k - 1);
      assert Moves(e, configs[k - 1], events[k - 1], configs[(k - 1) + 1]);
      var acts := EventKeeps(e, rank, entries, throwers, configs[k - 1], events[k - 1], configs[k]);
      actions, states := RunFollows(e, entries, actions, states, acts, Abs(e.g, configs[k].s));
    }
  }

  /** Run safety with handlers that may throw at once: if there is no shortcut through nodes that may, then at
      every point of every run slots are respected, no node is scheduled twice, dependencies come first,
      attempts are bounded, and the blocked nodes are exactly those that depend on a hard failure. */
  lemma StackSafety(e: Env, rank: map<NodeId, nat>, entries: seq<NodeId>, throwers: set<NodeId>,
                    events: seq<Event>, configs: seq<Config>, k: nat)
    requires Sound(e, rank, entries) && OnlyThrow(e, throwers, GoesOn(events)) && NoShortcut(e.g, e.ids, throwers)
    requires IsStackRun(e, entries, events, configs) && k <= |events|
    ensures var s := configs[k].s;
      && Known(e, s)
      && |RunningNodes(e.g, s)| <= s.active
      && (s.active <= e.limit || s.active == 0)
      && (forall n | n in e.g :: NodeSafe(e.g, s, n))
      && BlockedExactly(e.g, s)
  {
    StackRunInv(e, rank, entries, throwers, events, configs, k);
    SoundIsRunnable(e, rank, entries);
    var s := configs[k].s;
    var actions, states := Refines(e, rank, entries, throwers, events, configs, k);
    RunSafety(e.g, rank, e.limit, Outcomes(e), entries, actions, states, |actions|);
    SafeBelow(e, s);
  }

  lemma SafeBelow(e: Env, s: State)
    requires Known(e, s)
    requires forall n | n in e.g :: NodeSafe(e.g, Abs(e.g, s), n)
    requires BlockedExactly(e.g, Abs(e.g, s)) && |RunningNodes(e.g, Abs(e.g, s))| <= s.active
    ensures forall n | n in e.g :: NodeSafe(e.g, s, n)
    ensures BlockedExactly(e.g, s) && |RunningNodes(e.g, s)| <= s.active
  {
    assert RunningNodes(e.g, s) == RunningNodes(e.g, Abs(e.g, s));
    forall n | n in e.g ensures NodeSafe(e.g, s, n) {
      assert NodeSafe(e.g, Abs(e.g, s), n);
    }
  }

  /** Confluence with handlers that may throw at once: whatever the interleaving and the limit, a run that is over
      and was not stopped ends with the final status and attempt count at every node. */
  lemma StackConfluence(e: Env, rank: map<NodeId, nat>, entries: seq<NodeId>, throwers: set<NodeId>,
                        events: seq<Event>, configs: seq<Config>)
    requires Sound(e, rank, entries) && OnlyThrow(e, throwers, GoesOn(events)) && NoShortcut(e.g, e.ids, throwers)
    requires IsStackRun(e, entries, events, configs)
    requires var c := configs[|events|]; c.stack == [] && c.s.running && AllDone(e.g, c.s)
    ensures HasFinalOutcome(e.g, rank, Outcomes(e), configs[|events|].s)
    ensures Throws(e.g, configs[|events|].s.status) <==> exists n :: FailsHard(e.g, rank, Outcomes(e), n)
  {
    StackRunInv(e, rank, entries, throwers, events, configs, |events|);
    NoLoopNothingReady(e, throwers, configs[|events|]);
    DoneIsFinal(e.g, rank, e.limit, Outcomes(e), configs[|events|].s);
    ThrowsIffFailsHard(e.g, rank, Outcomes(e), configs[|events|].s);
  }

  lemma {:induction false} FollowsFalls(e: Env, rank: map<NodeId, nat>, entries: seq<NodeId>, t: State,
                                        acts: seq<Action>, t': State)
    requires Sound(e, rank, entries) && Inv(e.g, e.limit, Outcomes(e), t)
    requires Follows(e, t, acts, t') && NeverStopped(acts)
    ensures Measure(e.g, t') + |acts| <= Measure(e.g, t) && t'.running == t.running
    decreases |acts|
  {
    if acts != [] {
      assert acts[0] != Stop;
      var t1 := Apply(e.g, t, acts[0]);
      StepFalls(e, rank, entries, t, acts[0], t1);
      assert forall i | 0 <= i < |acts[1..]| :: acts[1..][i] == acts[i + 1];
      FollowsFalls(e, rank, entries, t1, acts[1..], t');
    }
  }

  lemma StepFalls(e: Env, rank: map<NodeId, nat>, entries: seq<NodeId>, t: State, a: Action, t1: State)
    requires Sound(e, rank, entries) && Inv(e.g, e.limit, Outcomes(e), t)
    requires Enabled(e.g, e.limit, Outcomes(e), t, a) && a != Stop && t1 == Apply(e.g, t, a)
    ensures Measure(e.g, t1) < Measure(e.g, t) && t1.running == t.running && Inv(e.g, e.limit, Outcomes(e), t1)
  {
    SoundIsRunnable(e, rank, entries);
    MeasureFalls(e.g, e.limit, Outcomes(e), t, a);
    StepKeeps(e.g, rank, e.limit, Outcomes(e), entries, t, a);
    OnlyStopStops(e.g, e.limit, Outcomes(e), t, a);
  }

  /** Termination: every event but stopping lowers the measure, or leaves it and shortens the loops under way. */
  lemma EventFalls(e: Env, rank: map<NodeId, nat>, entries: seq<NodeId>, throwers: set<NodeId>, c: Config, v: Event,
                   c': Config)
    requires Sound(e, rank, entries) && OnlyThrow(e, throwers, c.s.running) && NoShortcut(e.g, e.ids, throwers)
    requires StackInv(e, throwers, c) && Moves(e, c, v, c') && v != Async(Stop)
    ensures StackInv(e, throwers, c') && c'.s.running == c.s.running
    ensures Measure(e.g, Abs(e.g, c'.s)) < Measure(e.g, Abs(e.g, c.s))
         || (Measure(e.g, Abs(e.g, c'.s)) == Measure(e.g, Abs(e.g, c.s)) && Size(c'.stack) < Size(c.stack))
  {
    var acts := EventKeeps(e, rank, entries, throwers, c, v, c');
    FollowsFalls(e, rank, entries, Abs(e.g, c.s), acts, Abs(e.g, c'.s));
    if acts == [] { assert Abs(e.g, c'.s) == Abs(e.g, c.s); }
  }

  /** Progress: with enough slots for retries, some event is possible until all nodes are terminal. */
  lemma StackProgress(e: Env, rank: map<NodeId, nat>, entries: seq<NodeId>, throwers: set<NodeId>, c: Config)
    requires Sound(e, rank, entries) && StackInv(e, throwers, c) && SlotsSuffice(e.g, e.limit)
    requires c.stack != [] || !AllDone(e.g, c.s)
    ensures exists v :: v != Async(Stop) && Possible(e, c, v)
  {
    if c.stack != [] {
      assert Possible(e, c, Visit);
    } else {
      NoLoopNothingReady(e, throwers, c);
      Progress(e.g, rank, e.limit, Outcomes(e), c.s);
      var a :| a != Stop && Enabled(e.g, e.limit, Outcomes(e), c.s, a);
      assert Possible(e, c, Async(a));
    }
  }

  /** Once a run is stopped no failure is retried any more, whatever the handlers: the calls that wait to retry are
      among those that waited when it was stopped. */
  lemma {:induction false} StopEndsRetries(e: Env, entries: seq<NodeId>, events: seq<Event>, configs: seq<Config>,
                                          j: nat, k: nat)
    requires IsStackRun(e, entries, events, configs) && j <= k <= |events| && !configs[j].s.running
    ensures !configs[k].s.running && configs[k].s.backoff <= configs[j].s.backoff
  {
    if j < k {
      StopEndsRetries(e, entries, events, configs, j, k - 1);
      assert Moves(e, configs[k - 1], events[k - 1], configs[(k - 1) + 1]);
      StoppedEvent(e, configs[k - 1], events[k - 1], configs[k]);
    }
  }

  lemma StoppedEvent(e: Env, c: Config, v: Event, c': Config)
    requires Moves(e, c, v, c') && !c.s.running
    ensures !c'.s.running && c'.s.backoff <= c.s.backoff
  {
    if v.Visit? { StoppedTurn(e, c); }
  }

  lemma StoppedTurn(e: Env, c: Config)
    requires Known(e, c.s) && c.stack != [] && !c.s.running
    ensures !Visited(e, c).s.running && Visited(e, c).s.backoff <= c.s.backoff
  {}
}
