/** Paginated queries over the shared context. The in-memory store walks its entries once; the Redis store
    scans keys in batches of any size, up to a cap on the number of batches. */
module ContextQuery {
  import opened Common

  const MAX_SCAN_ITERATIONS: nat := 1000

  function Filter<T>(xs: seq<T>, keep: T -> bool): (r: seq<T>)
    ensures |r| <= |xs|
  {
    if xs == [] then []
    else if keep(xs[|xs| - 1]) then Filter(xs[..|xs| - 1], keep) + [xs[|xs| - 1]]
    else Filter(xs[..|xs| - 1], keep)
  }

  function Clamp(k: int, n: nat): nat {
    if k < 0 then 0 else if k > n then n else k
  }

  function Drop<T>(xs: seq<T>, k: int): seq<T> { xs[Clamp(k, |xs|)..] }

  function Take<T>(xs: seq<T>, limit: Option<int>): seq<T> {
    if limit.None? then xs else xs[..Clamp(limit.value, |xs|)]
  }

  /** The page asked for: what passes the filter, from the offset on, up to the limit. */
  function Page<T>(xs: seq<T>, keep: T -> bool, offset: int, limit: Option<int>): seq<T> {
    Take(Drop(Filter(xs, keep), offset), limit)
  }

  predicate Full<T>(results: seq<T>, limit: Option<int>) {
    limit.Some? && |results| >= limit.value
  }

  /** The loop state after some entries: what was skipped and collected so far. */
  ghost predicate Collected<T>(seen: seq<T>, keep: T -> bool, offset: int, limit: Option<int>, skipped: int,
                               results: seq<T>) {
    var f := Filter(seen, keep);
    && 0 <= skipped <= |f|
    && (skipped == Clamp(offset, |f|))
    && results == Drop(f, offset)
    && (limit.Some? ==> |results| <= (if limit.value < 0 then 0 else limit.value))
  }

  lemma CollectNext<T>(seen: seq<T>, x: T, keep: T -> bool, offset: int, limit: Option<int>, skipped: int,
                       results: seq<T>)
    requires Collected(seen, keep, offset, limit, skipped, results) && !Full(results, limit)
    ensures !keep(x) ==> Collected(seen + [x], keep, offset, limit, skipped, results)
    ensures keep(x) && skipped < offset ==> Collected(seen + [x], keep, offset, limit, skipped + 1, results)
    ensures keep(x) && skipped >= offset ==> Collected(seen + [x], keep, offset, limit, skipped, results + [x])
  {
    assert (seen + [x])[..|seen|] == seen;
  }

  lemma {:induction false} FilterAppend<T>(a: seq<T>, b: seq<T>, keep: T -> bool)
    ensures Filter(a + b, keep) == Filter(a, keep) + Filter(b, keep)
    decreases |b|
  {
    if b == [] {
      assert a + b == a;
    } else {
      var ab := a + b;
      assert ab[..|ab| - 1] == a + b[..|b| - 1] && ab[|ab| - 1] == b[|b| - 1];
      FilterAppend(a, b[..|b| - 1], keep);
    }
  }

  /** A full result is the page, however many entries are left. */
  lemma FullIsPage<T>(seen: seq<T>, rest: seq<T>, keep: T -> bool, offset: int, limit: Option<int>, skipped: int,
                      results: seq<T>)
    requires Collected(seen, keep, offset, limit, skipped, results)
    requires Full(results, limit) || rest == []
    ensures results == Page(seen + rest, keep, offset, limit)
  {
    FilterAppend(seen, rest, keep);
    if rest == [] { assert seen + rest == seen; }
  }

  /** The in-memory loop. */
  method Query<T>(entries: seq<T>, keep: T -> bool, offset: int, limit: Option<int>) returns (results: seq<T>)
    ensures results == Page(entries, keep, offset, limit)
  {
    results := [];
    var skipped := 0;
    for k := 0 to |entries|
      invariant Collected(entries[..k], keep, offset, limit, skipped, results)
    {
      if limit.Some? && |results| >= limit.value {
        assert entries[..k] + entries[k..] == entries;
        FullIsPage(entries[..k], entries[k..], keep, offset, limit, skipped, results);
        return;
      }
      assert entries[..k + 1] == entries[..k] + [entries[k]];
      CollectNext(entries[..k], entries[k], keep, offset, limit, skipped, results);
      if !keep(entries[k]) { continue; }
      if skipped < offset { skipped := skipped + 1; continue; }
      results := results + [entries[k]];
    }
    assert entries[..|entries|] == entries && entries + [] == entries;
    FullIsPage(entries, [], keep, offset, limit, skipped, results);
  }

  /** The entries a scan gets to see: those of the batches before the cap. */
  function Scanned<T>(batches: seq<seq<T>>): seq<T> {
    Concat(batches[..if |batches| < MAX_SCAN_ITERATIONS then |batches| else MAX_SCAN_ITERATIONS])
  }

  /** One batch: the inner loop, which stops as soon as the result is full. */
  method QueryBatch<T>(ghost seen: seq<T>, batch: seq<T>, keep: T -> bool, offset: int, limit: Option<int>,
                       skipped: int, results: seq<T>)
    returns (skipped': int, results': seq<T>)
    requires Collected(seen, keep, offset, limit, skipped, results)
    ensures Collected(seen + batch, keep, offset, limit, skipped', results')
         || (Full(results', limit) && forall rest :: results' == Page(seen + batch + rest, keep, offset, limit))
  {
    skipped', results' := skipped, results;
    assert seen + batch[..0] == seen;
    for k := 0 to |batch|
      invariant Collected(seen + batch[..k], keep, offset, limit, skipped', results')
    {
      if limit.Some? && |results'| >= limit.value {
        forall rest ensures results' == Page(seen + batch + rest, keep, offset, limit) {
          assert seen + batch + rest == (seen + batch[..k]) + (batch[k..] + rest);
          FullIsPage(seen + batch[..k], batch[k..] + rest, keep, offset, limit, skipped', results');
        }
        return;
      }
      assert seen + batch[..k + 1] == (seen + batch[..k]) + [batch[k]];
      CollectNext(seen + batch[..k], batch[k], keep, offset, limit, skipped', results');
      if !keep(batch[k]) { continue; }
      if skipped' < offset { skipped' := skipped' + 1; continue; }
      results' := results' + [batch[k]];
    }
    assert batch[..|batch|] == batch;
  }

  /** The scan loop: stop when the result is full, at the cap, or when the cursor comes back to zero. Below the cap,
      the way the keys are split into batches does not matter. */
  method ScanQuery<T>(batches: seq<seq<T>>, keep: T -> bool, offset: int, limit: Option<int>) returns (results: seq<T>)
    requires |batches| >= 1
    ensures results == Page(Scanned(batches), keep, offset, limit)
    ensures |batches| <= MAX_SCAN_ITERATIONS ==> results == Page(Concat(batches), keep, offset, limit)
  {
    assert |batches| <= MAX_SCAN_ITERATIONS ==> Scanned(batches) == Concat(batches)
      by { assert batches[..|batches|] == batches; }
    ghost var scanned := batches[..if |batches| < MAX_SCAN_ITERATIONS then |batches| else MAX_SCAN_ITERATIONS];
    results := [];
    var skipped, i := 0, 0;
    while i < |batches| && i < MAX_SCAN_ITERATIONS
      invariant i <= |scanned| && Collected(Concat(batches[..i]), keep, offset, limit, skipped, results)
    {
      ghost var seen := Concat(batches[..i]);
      skipped, results := QueryBatch(seen, batches[i], keep, offset, limit, skipped, results);
      assert batches[..i + 1][..i] == batches[..i];
      assert Concat(batches[..i + 1]) == seen + batches[i];
      i := i + 1;
      if limit.Some? && |results| >= limit.value {
        ghost var rest := ConcatSplit(scanned, i);
        assert scanned[..i] == batches[..i];
        if Collected(Concat(batches[..i]), keep, offset, limit, skipped, results) {
          FullIsPage(Concat(batches[..i]), rest, keep, offset, limit, skipped, results);
        }
        return;
      }
    }
    assert batches[..i] == scanned && Concat(scanned) + [] == Concat(scanned);
    FullIsPage(Concat(scanned), [], keep, offset, limit, skipped, results);
  }

  /** The first `n` pages, one after the other. */
  function Pages<T>(xs: seq<T>, keep: T -> bool, size: nat, n: nat): seq<T> {
    if n == 0 then [] else Pages(xs, keep, size, n - 1) + Page(xs, keep, (n - 1) * size, Some(size))
  }

  lemma NextPage<T>(f: seq<T>, p: nat, size: nat)
    ensures Take(f, Some(p)) + Take(Drop(f, p), Some(size)) == Take(f, Some(p + size))
  {
    var a, b := Clamp(p, |f|), Clamp(p + size, |f|);
    assert f[a..][..Clamp(size, |f| - a)] == f[a..b];
    assert f[..a] + f[a..b] == f[..b];
  }

  /** Consecutive pages over an unchanged store run through the filtered entries without gap or overlap. */
  lemma {:induction false} PagesAreAPrefix<T>(xs: seq<T>, keep: T -> bool, size: nat, n: nat)
    ensures Pages(xs, keep, size, n) == Take(Filter(xs, keep), Some(n * size))
  {
    if n > 0 {
      PagesAreAPrefix(xs, keep, size, n - 1);
      var p: nat := (n - 1) * size;
      assert p + size == n * size;
      NextPage(Filter(xs, keep), p, size);
    }
  }

  /** Enough pages give the whole filtered list. */
  lemma PagesCoverAll<T>(xs: seq<T>, keep: T -> bool, size: nat, n: nat)
    requires n * size >= |xs|
    ensures Pages(xs, keep, size, n) == Filter(xs, keep)
  {
    PagesAreAPrefix(xs, keep, size, n);
  }
}
