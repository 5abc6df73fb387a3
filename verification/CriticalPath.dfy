/** The critical path of a finished pipeline: the longest dependency chain by duration, found with a
    memo table, and the parallelism figure derived from it. */
module CriticalPath {
  import opened Common
  import opened Graph

  datatype Metric = Metric(id: NodeId, duration: real)

  datatype PathInfo = PathInfo(duration: real, path: seq<NodeId>)

  /** A node without a recorded duration counts as zero. */
  function Duration(metrics: map<NodeId, real>, n: NodeId): real {
    if n in metrics then metrics[n] else 0.0
  }

  function Sum(metrics: map<NodeId, real>, c: seq<NodeId>): real {
    if c == [] then 0.0 else Sum(metrics, c[..|c| - 1]) + Duration(metrics, c[|c| - 1])
  }

  /** A chain of nodes, each depending on the one before it. */
  ghost predicate IsChain(g: Dag, c: seq<NodeId>) {
    |c| >= 1 && forall i | 0 < i < |c| :: c[i] in g && c[i - 1] in g[c[i]].deps
  }

  ghost predicate IsChainTo(g: Dag, c: seq<NodeId>, n: NodeId) {
    IsChain(g, c) && c[|c| - 1] == n
  }

  /** `r` is a longest chain that ends in `n`. */
  ghost predicate Longest(g: Dag, metrics: map<NodeId, real>, n: NodeId, r: PathInfo) {
    && IsChainTo(g, r.path, n)
    && Sum(metrics, r.path) == r.duration
    && forall c | IsChainTo(g, c, n) :: Sum(metrics, c) <= r.duration
  }

  /** The best of the dependencies looked at so far, or nothing if none is longer than zero. */
  ghost predicate BestOf(g: Dag, metrics: map<NodeId, real>, deps: seq<NodeId>, r: PathInfo) {
    && Sum(metrics, r.path) == r.duration && r.duration >= 0.0
    && (r.path == [] || exists d :: d in deps && IsChainTo(g, r.path, d))
    && forall d, c | d in deps && IsChainTo(g, c, d) :: Sum(metrics, c) <= r.duration
  }

  lemma ExtendBest(g: Dag, metrics: map<NodeId, real>, n: NodeId, deps: seq<NodeId>, best: PathInfo)
    requires n in g && g[n].deps == DepSet(deps) && BestOf(g, metrics, deps, best)
    ensures Longest(g, metrics, n, PathInfo(best.duration + Duration(metrics, n), best.path + [n]))
  {
    var p := best.path + [n];
    assert p[..|p| - 1] == best.path;
    assert IsChainTo(g, p, n) by {
      if best.path != [] {
        var d :| d in deps && IsChainTo(g, best.path, d);
        assert d in DepSet(deps);
      }
    }
    forall c | IsChainTo(g, c, n) ensures Sum(metrics, c) <= best.duration + Duration(metrics, n) {
      if |c| > 1 {
        var q := c[..|c| - 1];
        assert c[|c| - 1 - 1] in g[c[|c| - 1]].deps;
        assert IsChainTo(g, q, q[|q| - 1]);
      } else {
        assert c[..0] == [];
      }
    }
  }

  /** A node without dependencies, or one the definition does not know. */
  lemma AloneIsLongest(g: Dag, metrics: map<NodeId, real>, n: NodeId)
    requires n !in g || g[n].deps == {}
    ensures Longest(g, metrics, n, PathInfo(Duration(metrics, n), [n]))
  {
    assert [n][..0] == [];
    forall c | IsChainTo(g, c, n) ensures c == [n] {
      if |c| > 1 { ChainHasDependency(g, c); }
    }
  }

  lemma ChainHasDependency(g: Dag, c: seq<NodeId>)
    requires IsChain(g, c) && |c| > 1
    ensures c[|c| - 1] in g && c[|c| - 2] in g[c[|c| - 1]].deps
  {
    var i := |c| - 1;
    assert c[i] in g && c[i - 1] in g[c[i]].deps;
  }

  class Search {
    const table: map<NodeId, NodeDef>
    const metrics: map<NodeId, real>
    ghost const g: Dag
    ghost const rank: map<NodeId, nat>
    var longestPaths: map<NodeId, PathInfo>

    ghost predicate Wired() {
      && g.Keys == table.Keys
      && (forall n | n in table :: g[n].deps == DepSet(table[n].deps))
      && IsRank(g, rank)
    }

    /** Whatever the memo table holds is right. */
    ghost predicate Valid()
      reads this
    {
      forall n | n in longestPaths :: Longest(g, metrics, n, longestPaths[n])
    }

    constructor (table: map<NodeId, NodeDef>, metrics: map<NodeId, real>, ghost rank: map<NodeId, nat>)
      requires IsRank(DagOfTable(table), rank)
      ensures Wired() && Valid() && g == DagOfTable(table) && this.metrics == metrics && fresh(this)
    {
      this.table, this.metrics, this.g, this.rank := table, metrics, DagOfTable(table), rank;
      longestPaths := map[];
    }

    ghost function RankOf(n: NodeId): nat {
      if n in rank then rank[n] else 0
    }

    method CalculatePath(nodeId: NodeId) returns (r: PathInfo)
      requires Wired() && Valid()
      modifies this
      ensures Valid() && Longest(g, metrics, nodeId, r)
      decreases RankOf(nodeId), 1
    {
      if nodeId in longestPaths { return longestPaths[nodeId]; }
      if nodeId !in table || |table[nodeId].deps| == 0 {
        r := PathInfo(Duration(metrics, nodeId), [nodeId]);
        AloneIsLongest(g, metrics, nodeId);
      } else {
        var best := BestDependency(nodeId, table[nodeId].deps);
        r := PathInfo(best.duration + Duration(metrics, nodeId), best.path + [nodeId]);
        ExtendBest(g, metrics, nodeId, table[nodeId].deps, best);
      }
      longestPaths := longestPaths[nodeId := r];
    }

    /** The loop over a node's dependencies. */
    method BestDependency(nodeId: NodeId, deps: seq<NodeId>) returns (best: PathInfo)
      requires Wired() && Valid() && nodeId in g && g[nodeId].deps == DepSet(deps)
      modifies this
      ensures Valid() && BestOf(g, metrics, deps, best)
      decreases RankOf(nodeId), 0
    {
      best := PathInfo(0.0, []);
      for k := 0 to |deps|
        invariant Valid() && BestOf(g, metrics, deps[..k], best)
      {
        assert deps[k] in g[nodeId].deps;
        var depPath := CalculatePath(deps[k]);
        assert deps[..k + 1] == deps[..k] + [deps[k]];
        if depPath.duration > best.duration { best := depPath; }
      }
      assert deps[..|deps|] == deps;
    }
  }

  /** `r` is a longest chain of the graph, or empty when no chain is longer than zero. */
  ghost predicate Critical(g: Dag, metrics: map<NodeId, real>, r: PathInfo) {
    && Sum(metrics, r.path) == r.duration && r.duration >= 0.0
    && (r.path == [] || (IsChain(g, r.path) && r.path[|r.path| - 1] in g))
    && forall c | IsChain(g, c) && c[|c| - 1] in g :: Sum(metrics, c) <= r.duration
  }

  /** The loop over all nodes. */
  method CriticalOver(ids: seq<NodeId>, table: map<NodeId, NodeDef>, metrics: map<NodeId, real>,
                      ghost rank: map<NodeId, nat>)
    returns (critical: PathInfo)
    requires IsRank(DagOfTable(table), rank) && forall id :: id in ids <==> id in table
    ensures Critical(DagOfTable(table), metrics, critical)
  {
    var search := new Search(table, metrics, rank);
    ghost var g := DagOfTable(table);
    critical := PathInfo(0.0, []);
    for k := 0 to |ids|
      invariant search.Wired() && search.Valid() && search.g == g && search.metrics == metrics
      invariant BestOf(g, metrics, ids[..k], critical)
    {
      var path := search.CalculatePath(ids[k]);
      assert ids[..k + 1] == ids[..k] + [ids[k]];
      if path.duration > critical.duration { critical := path; }
    }
    assert ids[..|ids|] == ids;
    BestIsCritical(g, metrics, ids, critical);
  }

  lemma BestIsCritical(g: Dag, metrics: map<NodeId, real>, ids: seq<NodeId>, r: PathInfo)
    requires BestOf(g, metrics, ids, r) && forall id :: id in ids <==> id in g
    ensures Critical(g, metrics, r)
  {
    forall c | IsChain(g, c) && c[|c| - 1] in g ensures Sum(metrics, c) <= r.duration {
      assert IsChainTo(g, c, c[|c| - 1]);
    }
  }

  /** The memoised search is optimal: no dependency chain takes longer than the reported path, and the
      reported path is a real chain that takes exactly the reported time. */
  method CalculateCriticalPath(nodes: seq<NodeDef>, metrics: map<NodeId, real>, ghost rank: map<NodeId, nat>)
    returns (critical: PathInfo)
    requires IsRank(DagOf(nodes), rank)
    ensures Critical(DagOf(nodes), metrics, critical)
  {
    var ids := IdList(nodes);
    critical := CriticalOver(ids, Table(nodes), metrics, rank);
  }

  // ---- utilisation ----

  function TotalTime(ms: seq<Metric>): real {
    if ms == [] then 0.0 else TotalTime(ms[..|ms| - 1]) + ms[|ms| - 1].duration
  }

  /** Node time divided by critical time and node count. */
  function Quotient(total: real, d: real, n: int): real {
    if d * n as real == 0.0 then 0.0 else total / (d * n as real)
  }

  /** The quotient, capped at one. Nothing divided by nothing is no number. */
  method CalculateUtilization(ms: seq<Metric>, totalDuration: real) returns (u: Option<real>)
    ensures totalDuration == 0.0 ==> u == Some(0.0)
    ensures totalDuration != 0.0 && ms == [] ==> u == None
    ensures totalDuration != 0.0 && ms != [] ==> u == Some(Min(1.0, Quotient(TotalTime(ms), totalDuration, |ms|)))
  {
    if totalDuration == 0.0 { return Some(0.0); }
    var total := 0.0;
    for k := 0 to |ms|
      invariant total == TotalTime(ms[..k])
    {
      assert ms[..k + 1][..k] == ms[..k];
      total := total + ms[k].duration;
    }
    assert ms[..|ms|] == ms;
    u := if ms == [] then None else Some(Min(1.0, total / (totalDuration * |ms| as real)));
  }

  function Min(a: real, b: real): real {
    if a <= b then a else b
  }

  ghost predicate Metered(ms: seq<Metric>, n: NodeId) {
    exists i :: 0 <= i < |ms| && ms[i].id == n
  }

  ghost predicate RecordedIn(metrics: map<NodeId, real>, m: Metric) {
    m.duration >= 0.0 && m.id in metrics && metrics[m.id] == m.duration
  }

  /** One non-negative measurement for each node of the graph. */
  ghost predicate Measured(g: Dag, ms: seq<Metric>, metrics: map<NodeId, real>) {
    && (forall i, j | 0 <= i < j < |ms| :: ms[i].id != ms[j].id)
    && (forall i | 0 <= i < |ms| :: RecordedIn(metrics, ms[i]) && ms[i].id in g)
    && (forall n | n in g :: Metered(ms, n))
  }

  function Without(c: seq<NodeId>, n: NodeId): seq<NodeId> {
    if c == [] then []
    else if c[|c| - 1] == n then Without(c[..|c| - 1], n)
    else Without(c[..|c| - 1], n) + [c[|c| - 1]]
  }

  ghost predicate Distinct(c: seq<NodeId>) {
    forall i, j | 0 <= i < j < |c| :: c[i] != c[j]
  }

  lemma {:induction false} WithoutMembers(c: seq<NodeId>, n: NodeId)
    ensures forall x :: x in Without(c, n) <==> x in c && x != n
  {
    if c != [] {
      var q := c[..|c| - 1];
      WithoutMembers(q, n);
      assert c == q + [c[|c| - 1]];
    }
  }

  lemma {:induction false} WithoutDistinct(c: seq<NodeId>, n: NodeId)
    requires Distinct(c)
    ensures Distinct(Without(c, n))
  {
    if c != [] {
      var q := c[..|c| - 1];
      WithoutDistinct(q, n);
      WithoutMembers(q, n);
      assert c[|c| - 1] !in q;
    }
  }

  /** Taking a node out of a list that has it once lowers the sum by its duration. */
  lemma {:induction false} SumWithout(metrics: map<NodeId, real>, c: seq<NodeId>, n: NodeId)
    requires Distinct(c)
    ensures Sum(metrics, c) == Sum(metrics, Without(c, n)) + if n in c then Duration(metrics, n) else 0.0
  {
    if c != [] {
      var q, last := c[..|c| - 1], c[|c| - 1];
      SumWithout(metrics, q, n);
      assert last !in q;
      assert n in c <==> n in q || n == last;
      if last != n {
        var w := Without(q, n) + [last];
        assert w[..|w| - 1] == Without(q, n);
      }
    }
  }

  lemma MeteredInRest(ms: seq<Metric>, n: NodeId)
    requires ms != [] && Metered(ms, n) && n != ms[|ms| - 1].id
    ensures Metered(ms[..|ms| - 1], n)
  {
    var i :| 0 <= i < |ms| && ms[i].id == n;
    assert ms[..|ms| - 1][i].id == n;
  }

  /** Distinct measured nodes take no longer than all of them together. */
  lemma {:induction false} DistinctWithinTotal(metrics: map<NodeId, real>, ms: seq<Metric>, c: seq<NodeId>)
    requires forall i | 0 <= i < |ms| :: RecordedIn(metrics, ms[i])
    requires Distinct(c) && forall x | x in c :: Metered(ms, x)
    ensures Sum(metrics, c) <= TotalTime(ms)
  {
    if ms == [] {
      assert forall x :: !Metered(ms, x);
      assert forall k | 0 <= k < |c| :: c[k] !in c;
    } else {
      var q, m := ms[..|ms| - 1], ms[|ms| - 1];
      var w := Without(c, m.id);
      WithoutMembers(c, m.id);
      WithoutDistinct(c, m.id);
      SumWithout(metrics, c, m.id);
      assert RecordedIn(metrics, m);
      forall x | x in w ensures Metered(q, x) { MeteredInRest(ms, x); }
      DistinctWithinTotal(metrics, q, w);
    }
  }

  lemma {:induction false} ChainRanks(g: Dag, rank: map<NodeId, nat>, c: seq<NodeId>, i: nat, j: nat)
    requires IsRank(g, rank) && IsChain(g, c) && i < j < |c|
    ensures c[i] in rank && c[j] in rank && rank[c[i]] < rank[c[j]]
  {
    var n, d := c[j], c[j - 1];
    assert n in g && d in g[n].deps;
    assert n in rank && d in rank && rank[d] < rank[n];
    if i < j - 1 { ChainRanks(g, rank, c, i, j - 1); }
  }

  lemma {:induction false} TotalWithinBound(ms: seq<Metric>, bound: real)
    requires forall i | 0 <= i < |ms| :: ms[i].duration <= bound
    ensures AtMost(TotalTime(ms), bound, |ms|)
  {
    if ms != [] {
      TotalWithinBound(ms[..|ms| - 1], bound);
      assert bound * |ms| as real == bound * (|ms| - 1) as real + bound;
    }
  }

  lemma CriticalWithinTotal(g: Dag, rank: map<NodeId, nat>, ms: seq<Metric>, metrics: map<NodeId, real>, c: seq<NodeId>)
    requires Closed(g) && IsRank(g, rank) && Measured(g, ms, metrics) && IsChain(g, c) && c[|c| - 1] in g
    ensures Sum(metrics, c) <= TotalTime(ms)
  {
    forall i, j | 0 <= i < j < |c| ensures c[i] != c[j] { ChainRanks(g, rank, c, i, j); }
    forall k | 0 <= k < |c| ensures Metered(ms, c[k]) {
      if k < |c| - 1 {
        var n := c[k + 1];
        assert n in g && c[(k + 1) - 1] in g[n].deps;
      }
      assert c[k] in g;
    }
    DistinctWithinTotal(metrics, ms, c);
  }

  lemma NodeWithinCritical(g: Dag, metrics: map<NodeId, real>, r: PathInfo, m: Metric)
    requires Critical(g, metrics, r) && RecordedIn(metrics, m) && m.id in g
    ensures m.duration <= r.duration
  {
    var one := [m.id];
    assert IsChain(g, one) && one[|one| - 1] in g;
    assert one[..0] == [];
  }

  lemma TotalWithinCritical(g: Dag, ms: seq<Metric>, metrics: map<NodeId, real>, r: PathInfo)
    requires (forall i | 0 <= i < |ms| :: RecordedIn(metrics, ms[i]) && ms[i].id in g) && Critical(g, metrics, r)
    ensures AtMost(TotalTime(ms), r.duration, |ms|)
  {
    forall i | 0 <= i < |ms| ensures ms[i].duration <= r.duration {
      NodeWithinCritical(g, metrics, r, ms[i]);
    }
    TotalWithinBound(ms, r.duration);
  }

  /** For non-negative durations and a critical path longer than zero, the raw quotient already lies
      between 1/n and 1, so the cap never changes it. */
  lemma UtilizationInRange(g: Dag, rank: map<NodeId, nat>, ms: seq<Metric>, metrics: map<NodeId, real>, r: PathInfo)
    requires Closed(g) && IsRank(g, rank) && Measured(g, ms, metrics) && Critical(g, metrics, r) && r.duration > 0.0
    ensures ms != []
    ensures 1.0 / |ms| as real <= Quotient(TotalTime(ms), r.duration, |ms|) <= 1.0
  {
    CriticalWithinTotal(g, rank, ms, metrics, r.path);
    TotalWithinCritical(g, ms, metrics, r);
    QuotientBounds(TotalTime(ms), r.duration, |ms|);
  }

  ghost predicate AtMost(total: real, d: real, n: int) {
    total <= d * n as real
  }

  lemma QuotientBounds(total: real, d: real, n: int)
    requires d > 0.0 && n >= 1 && d <= total && AtMost(total, d, n)
    ensures 1.0 / n as real <= Quotient(total, d, n) <= 1.0
  {
    var m := n as real;
    assert d * m > 0.0;
    assert total / (d * m) <= (d * m) / (d * m) == 1.0;
    assert d / (d * m) <= total / (d * m);
    assert d / (d * m) == 1.0 / m;
  }
}
