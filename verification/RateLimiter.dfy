/** The gateway's fixed-window rate limiter with lazy clean-up. Times are in nanoseconds. */
module RateLimiter {
  import opened Common

  type Key = string

  datatype Window = Window(expires: int, count: int)

  datatype Bucket = Bucket(limit: int, window: int)

  datatype Decision = Decision(allowed: bool, retryAfter: int)

  const CLEANUP_INTERVAL := 60_000_000_000

  type Windows = map<Key, Window>

  // ---- one decision on a table of windows ----

  /** The window a request falls into: the stored one, or a new one when there is none or it is over. */
  function Current(ws: Windows, key: Key, now: int, b: Bucket): Window {
    if key !in ws || now > ws[key].expires then Window(now + b.window, 0) else ws[key]
  }

  predicate Unlimited(b: Bucket) {
    b.limit <= 0 || b.window <= 0
  }

  function Decide(ws: Windows, key: Key, now: int, b: Bucket): Decision {
    var w := Current(ws, key, now, b);
    if Unlimited(b) then Decision(true, 0)
    else if w.count >= b.limit then Decision(false, if w.expires - now < 0 then 0 else w.expires - now)
    else Decision(true, 0)
  }

  function Next(ws: Windows, key: Key, now: int, b: Bucket): Windows {
    var w := Current(ws, key, now, b);
    if Unlimited(b) then ws
    else if w.count >= b.limit then ws[key := w]
    else ws[key := w.(count := w.count + 1)]
  }

  function Cleaned(ws: Windows, now: int): Windows {
    map k | k in ws && !(now > ws[k].expires) :: ws[k]
  }

  predicate CleanupDue(last: Option<int>, now: int) {
    last == None || now - last.value >= CLEANUP_INTERVAL
  }

  class Limiter {
    var windows: Windows
    var lastCleanup: Option<int>

    constructor ()
      ensures windows == map[] && lastCleanup == None
    {
      windows, lastCleanup := map[], None;
    }

    method Allow(key: Key, now: int, b: Bucket) returns (d: Decision)
      modifies this
      ensures d == Decide(old(windows), key, now, b)
      ensures var due := d.allowed && !Unlimited(b) && CleanupDue(old(lastCleanup), now);
        && windows == (if due then Cleaned(Next(old(windows), key, now, b), now) else Next(old(windows), key, now, b))
        && lastCleanup == (if due then Some(now) else old(lastCleanup))
    {
      if b.limit <= 0 || b.window <= 0 { return Decision(true, 0); }
      var state := if key in windows then windows[key] else Window(0, 0);
      if key !in windows || now > state.expires {
        state := Window(now + b.window, 0);
      }
      if state.count >= b.limit {
        var retryAfter := state.expires - now;
        if retryAfter < 0 { retryAfter := 0; }
        windows := windows[key := state];
        return Decision(false, retryAfter);
      }
      windows := windows[key := state.(count := state.count + 1)];
      MaybeCleanup(now);
      return Decision(true, 0);
    }

    /** Once per interval, delete the windows that are over. */
    method MaybeCleanup(now: int)
      modifies this
      ensures var due := CleanupDue(old(lastCleanup), now);
        && windows == (if due then Cleaned(old(windows), now) else old(windows))
        && lastCleanup == (if due then Some(now) else old(lastCleanup))
    {
      if lastCleanup.Some? && now - lastCleanup.value < CLEANUP_INTERVAL { return; }
      ghost var was := windows;
      var todo := windows.Keys;
      while todo != {}
        invariant todo <= windows.Keys <= was.Keys
        invariant forall k | k in windows :: windows[k] == was[k]
        invariant forall k | k in was && k !in todo :: k in windows <==> !(now > was[k].expires)
      {
        var key :| key in todo;
        todo := todo - {key};
        if now > windows[key].expires { windows := windows - {key}; }
      }
      lastCleanup := Some(now);
    }
  }

  // ---- clean-up cannot be observed ----

  datatype Call = Call(key: Key, now: int, b: Bucket)

  ghost predicate Monotone(calls: seq<Call>) {
    forall i, j | 0 <= i < j < |calls| :: calls[i].now <= calls[j].now
  }

  /** The limiter as it is. */
  function Decisions(ws: Windows, last: Option<int>, calls: seq<Call>): seq<Decision>
    decreases |calls|
  {
    if calls == [] then []
    else
      var c := calls[0];
      var d := Decide(ws, c.key, c.now, c.b);
      var ws' := Next(ws, c.key, c.now, c.b);
      if d.allowed && !Unlimited(c.b) && CleanupDue(last, c.now) then
        [d] + Decisions(Cleaned(ws', c.now), Some(c.now), calls[1..])
      else [d] + Decisions(ws', last, calls[1..])
  }

  /** A limiter that never deletes a window. */
  function Plain(ws: Windows, calls: seq<Call>): (r: seq<Decision>)
    ensures |r| == |calls|
    decreases |calls|
  {
    if calls == [] then []
    else
      var c := calls[0];
      [Decide(ws, c.key, c.now, c.b)] + Plain(Next(ws, c.key, c.now, c.b), calls[1..])
  }

  /** The cleaned table is the full one without some windows that are over by `now`. */
  ghost predicate Lags(ws: Windows, full: Windows, now: int) {
    && ws.Keys <= full.Keys
    && (forall k | k in ws :: ws[k] == full[k])
    && (forall k | k in full && k !in ws :: now > full[k].expires)
  }

  /** For clock readings that never go back, deleting finished windows changes no decision and no
      retry-after. */
  lemma {:induction false} CleanupUnobservable(ws: Windows, full: Windows, last: Option<int>, calls: seq<Call>,
                                               now: int)
    requires Lags(ws, full, now) && Monotone(calls) && (calls != [] ==> now <= calls[0].now)
    ensures Decisions(ws, last, calls) == Plain(full, calls)
    decreases |calls|
  {
    if calls != [] {
      var c := calls[0];
      assert Current(ws, c.key, c.now, c.b) == Current(full, c.key, c.now, c.b);
      var ws', full' := Next(ws, c.key, c.now, c.b), Next(full, c.key, c.now, c.b);
      assert Lags(ws', full', c.now);
      if Decide(ws, c.key, c.now, c.b).allowed && !Unlimited(c.b) && CleanupDue(last, c.now) {
        assert Lags(Cleaned(ws', c.now), full', c.now);
        CleanupUnobservable(Cleaned(ws', c.now), full', Some(c.now), calls[1..], c.now);
      } else {
        CleanupUnobservable(ws', full', last, calls[1..], c.now);
      }
    }
  }

  /** With a reading that goes back, clean-up shows: a call at 100 deletes the full window that was over at 99, and a
      call whose reading is 98 then gets through, which the window would have refused. */
  lemma CleanupShowsWhenTheClockGoesBack(key: Key, other: Key)
    requires key != other
    ensures var calls := [Call(other, 100, Bucket(5, 10)), Call(key, 98, Bucket(1, 10))];
      var ws := map[key := Window(99, 1)];
      && Decisions(ws, None, calls) == [Decision(true, 0), Decision(true, 0)]
      && Plain(ws, calls) == [Decision(true, 0), Decision(false, 1)]
  {
    var b, c := Call(other, 100, Bucket(5, 10)), Call(key, 98, Bucket(1, 10));
    var ws := map[key := Window(99, 1)];
    var full := map[key := Window(99, 1), other := Window(110, 1)];
    var cleaned := map[other := Window(110, 1)];
    assert Next(ws, other, 100, b.b) == full && Cleaned(full, 100) == cleaned;
    assert [b, c][1..] == [c] && [c][1..] == [];
    assert Decisions(cleaned, Some(100), [c]) == [Decision(true, 0)];
    assert Plain(full, [c]) == [Decision(false, 1)];
  }

  // ---- when to try again ----

  /** No call for `key` before call `k` comes after `time`. */
  ghost predicate NoneLater(calls: seq<Call>, key: Key, k: nat, time: int)
    requires k <= |calls|
  {
    forall j | 0 <= j < k && calls[j].key == key :: calls[j].now <= time
  }

  /** A full window refuses until it is over, and names the time left. */
  lemma {:induction false} FullUntilOver(ws: Windows, calls: seq<Call>, key: Key, b: Bucket, k: nat)
    requires !Unlimited(b) && UsesBucket(calls, key, b) && k < |calls| && calls[k].key == key
    requires key in ws && ws[key].count >= b.limit && NoneLater(calls, key, k, ws[key].expires)
    ensures Plain(ws, calls)[k].allowed <==> calls[k].now > ws[key].expires
    ensures !Plain(ws, calls)[k].allowed ==> Plain(ws, calls)[k].retryAfter == ws[key].expires - calls[k].now
    decreases k
  {
    if k > 0 {
      var c, rest := calls[0], calls[1..];
      assert forall j | 0 <= j < |rest| :: rest[j] == calls[j + 1];
      var ws' := Next(ws, c.key, c.now, c.b);
      assert key in ws' && ws'[key] == ws[key];
      FullUntilOver(ws', rest, key, b, k - 1);
    }
  }

  /** A refused key is refused up to the retry-after it was told, and admitted at its first call after that. */
  lemma RetryAfterIsRight(ws: Windows, last: Option<int>, calls: seq<Call>, key: Key, b: Bucket, k: nat)
    requires !Unlimited(b) && Monotone(calls) && UsesBucket(calls, key, b) && k < |calls|
    requires calls[0].key == key && calls[k].key == key
    requires |Decisions(ws, last, calls)| == |calls| && !Decisions(ws, last, calls)[0].allowed
    requires NoneLater(calls, key, k, calls[0].now + Decisions(ws, last, calls)[0].retryAfter)
    ensures var ds := Decisions(ws, last, calls);
      && ds[0].retryAfter >= 0
      && (ds[k].allowed <==> calls[k].now > calls[0].now + ds[0].retryAfter)
      && (!ds[k].allowed ==> calls[k].now + ds[k].retryAfter == calls[0].now + ds[0].retryAfter)
  {
    CleanupUnobservable(ws, ws, last, calls, calls[0].now);
    FullUntilOver(ws, calls, key, b, 0);
    FullUntilOver(ws, calls, key, b, k);
  }

  // ---- how many requests a key gets through ----

  /** Requests of `key` admitted between `lo` and `hi`. */
  ghost function Admitted(ws: Windows, calls: seq<Call>, key: Key, lo: int, hi: int): nat
    decreases |calls|
  {
    if calls == [] then 0
    else
      var c := calls[0];
      (if c.key == key && lo <= c.now <= hi && Decide(ws, c.key, c.now, c.b).allowed then 1 else 0) +
      Admitted(Next(ws, c.key, c.now, c.b), calls[1..], key, lo, hi)
  }

  ghost predicate UsesBucket(calls: seq<Call>, key: Key, b: Bucket) {
    forall i | 0 <= i < |calls| :: calls[i].key == key ==> calls[i].b == b
  }

  ghost predicate CountOk(ws: Windows, key: Key, b: Bucket) {
    key in ws ==> 1 <= ws[key].count <= b.limit
  }

  lemma {:induction false} NoneAfter(ws: Windows, calls: seq<Call>, key: Key, lo: int, hi: int)
    requires Monotone(calls) && calls != [] && calls[0].now > hi
    ensures Admitted(ws, calls, key, lo, hi) == 0
    decreases |calls|
  {
    if |calls| > 1 {
      assert calls[0].now <= calls[1].now;
      NoneAfter(Next(ws, calls[0].key, calls[0].now, calls[0].b), calls[1..], key, lo, hi);
    }
  }

  /** What the key may still get through once the interval has begun. */
  ghost function Allowance(ws: Windows, key: Key, b: Bucket, hi: int): int {
    if key !in ws then b.limit
    else if ws[key].expires >= hi then b.limit - ws[key].count
    else 2 * b.limit - ws[key].count
  }

  lemma {:induction false} WithinAllowance(ws: Windows, calls: seq<Call>, key: Key, b: Bucket, lo: int, hi: int)
    requires !Unlimited(b) && hi - lo <= b.window && Monotone(calls) && UsesBucket(calls, key, b) && CountOk(ws, key, b)
    requires calls != [] ==> lo <= calls[0].now
    ensures Admitted(ws, calls, key, lo, hi) <= Allowance(ws, key, b, hi)
    decreases |calls|
  {
    if calls != [] {
      var c := calls[0];
      if c.now > hi {
        NoneAfter(ws, calls, key, lo, hi);
      } else {
        WithinAllowance(Next(ws, c.key, c.now, c.b), calls[1..], key, b, lo, hi);
      }
    }
  }

  /** In any closed interval no longer than the window, a key gets fewer than twice its limit through,
      whatever the other keys do. */
  lemma {:induction false} LessThanTwiceTheLimit(ws: Windows, calls: seq<Call>, key: Key, b: Bucket, lo: int, hi: int)
    requires !Unlimited(b) && hi - lo <= b.window && Monotone(calls) && UsesBucket(calls, key, b) && CountOk(ws, key, b)
    ensures Admitted(ws, calls, key, lo, hi) <= 2 * b.limit - 1
    decreases |calls|
  {
    if calls != [] && calls[0].now < lo {
      LessThanTwiceTheLimit(Next(ws, calls[0].key, calls[0].now, calls[0].b), calls[1..], key, b, lo, hi);
    } else {
      WithinAllowance(ws, calls, key, b, lo, hi);
    }
  }

  /** The same count, read off a list of decisions. */
  ghost function CountAllowed(calls: seq<Call>, ds: seq<Decision>, key: Key, lo: int, hi: int): nat
    requires |ds| == |calls|
  {
    if calls == [] then 0
    else (if calls[0].key == key && lo <= calls[0].now <= hi && ds[0].allowed then 1 else 0) +
         CountAllowed(calls[1..], ds[1..], key, lo, hi)
  }

  lemma {:induction false} CountIsAdmitted(ws: Windows, calls: seq<Call>, key: Key, lo: int, hi: int)
    ensures CountAllowed(calls, Plain(ws, calls), key, lo, hi) == Admitted(ws, calls, key, lo, hi)
    decreases |calls|
  {
    if calls != [] {
      var c := calls[0];
      assert Plain(ws, calls)[1..] == Plain(Next(ws, c.key, c.now, c.b), calls[1..]);
      CountIsAdmitted(Next(ws, c.key, c.now, c.b), calls[1..], key, lo, hi);
    }
  }

  /** The bound holds of the limiter as it is, clean-up included, from its start on. */
  lemma LimiterBound(calls: seq<Call>, key: Key, b: Bucket, lo: int, hi: int)
    requires !Unlimited(b) && hi - lo <= b.window && Monotone(calls) && UsesBucket(calls, key, b)
    ensures |Decisions(map[], None, calls)| == |calls|
    ensures CountAllowed(calls, Decisions(map[], None, calls), key, lo, hi) <= 2 * b.limit - 1
  {
    CleanupUnobservable(map[], map[], None, calls, if calls == [] then 0 else calls[0].now);
    CountIsAdmitted(map[], calls, key, lo, hi);
    LessThanTwiceTheLimit(map[], calls, key, b, lo, hi);
  }

  // ---- the bound is sharp ----

  function Burst(key: Key, now: int, b: Bucket, n: nat): (r: seq<Call>)
    ensures |r| == n && forall i | 0 <= i < n :: r[i] == Call(key, now, b)
  {
    seq(n, _ => Call(key, now, b))
  }

  lemma {:induction false} BurstAdmitted(ws: Windows, key: Key, now: int, b: Bucket, n: nat, rest: seq<Call>, lo: int,
                                         hi: int)
    requires !Unlimited(b) && lo <= now <= hi && key in ws && now <= ws[key].expires && ws[key].count + n <= b.limit
    ensures Admitted(ws, Burst(key, now, b, n) + rest, key, lo, hi) ==
            n + Admitted(ws[key := Window(ws[key].expires, ws[key].count + n)], rest, key, lo, hi)
    decreases n
  {
    var calls := Burst(key, now, b, n) + rest;
    if n == 0 {
      assert calls == rest && ws[key := Window(ws[key].expires, ws[key].count)] == ws;
    } else {
      assert calls[1..] == Burst(key, now, b, n - 1) + rest && calls[0] == Call(key, now, b);
      var ws' := Next(ws, key, now, b);
      OneAdmitted(ws, calls, key, now, b, lo, hi);
      BurstAdmitted(ws', key, now, b, n - 1, rest, lo, hi);
      UpdatedTwice(ws, key, Window(ws[key].expires, ws[key].count + 1), Window(ws[key].expires, ws[key].count + n));
    }
  }

  /** The first of some calls, made while the window is open and not full. */
  lemma OneAdmitted(ws: Windows, calls: seq<Call>, key: Key, now: int, b: Bucket, lo: int, hi: int)
    requires !Unlimited(b) && lo <= now <= hi && key in ws && now <= ws[key].expires && ws[key].count < b.limit
    requires calls != [] && calls[0] == Call(key, now, b)
    ensures Next(ws, key, now, b) == ws[key := Window(ws[key].expires, ws[key].count + 1)]
    ensures Admitted(ws, calls, key, lo, hi) == 1 + Admitted(Next(ws, key, now, b), calls[1..], key, lo, hi)
  {}

  lemma UpdatedTwice(ws: Windows, key: Key, v: Window, w: Window)
    ensures ws[key := v][key := w] == ws[key := w]
  {}

  /** A full window that is over lets a whole limit through again. */
  lemma FreshWindow(ws: Windows, key: Key, now: int, b: Bucket, lo: int, hi: int)
    requires !Unlimited(b) && lo <= now <= hi && key in ws && now > ws[key].expires
    ensures Admitted(ws, [Call(key, now, b)] + Burst(key, now, b, b.limit - 1), key, lo, hi) == b.limit
  {
    var calls := [Call(key, now, b)] + Burst(key, now, b, b.limit - 1);
    assert calls[1..] == Burst(key, now, b, b.limit - 1) + [];
    BurstAdmitted(Next(ws, key, now, b), key, now, b, b.limit - 1, [], lo, hi);
  }

  function WorstCase(key: Key, b: Bucket): seq<Call>
    requires !Unlimited(b)
  {
    [Call(key, 0, b)] + (Burst(key, b.window, b, b.limit - 1) +
      ([Call(key, b.window + 1, b)] + Burst(key, b.window + 1, b, b.limit - 1)))
  }

  lemma WorstCaseIsOrderly(key: Key, b: Bucket)
    requires !Unlimited(b)
    ensures Monotone(WorstCase(key, b)) && UsesBucket(WorstCase(key, b), key, b)
  {
    var calls, n := WorstCase(key, b), b.limit - 1;
    assert |calls| == 2 * n + 2;
    assert forall i | 0 <= i < |calls| ::
      calls[i] == Call(key, if i == 0 then 0 else if i <= n then b.window else b.window + 1, b);
  }

  /** Some run does get that many through: one request opens a window, the rest of its limit comes at its
      last instant, and a full limit right after. */
  lemma BoundIsReached(key: Key, b: Bucket)
    requires !Unlimited(b)
    ensures Monotone(WorstCase(key, b)) && UsesBucket(WorstCase(key, b), key, b)
    ensures Admitted(map[], WorstCase(key, b), key, b.window, 2 * b.window) == 2 * b.limit - 1
  {
    WorstCaseIsOrderly(key, b);
    FirstOpens(key, b);
    var lo, hi, n := b.window, 2 * b.window, b.limit - 1;
    var rest := [Call(key, lo + 1, b)] + Burst(key, lo + 1, b, n);
    var ws: Windows := map[key := Window(lo, 1)];
    BurstAdmitted(ws, key, lo, b, n, rest, lo, hi);
    FreshWindow(ws[key := Window(lo, 1 + n)], key, lo + 1, b, lo, hi);
  }

  lemma FirstOpens(key: Key, b: Bucket)
    requires !Unlimited(b)
    ensures Admitted(map[], WorstCase(key, b), key, b.window, 2 * b.window) ==
      Admitted(map[key := Window(b.window, 1)], Burst(key, b.window, b, b.limit - 1) +
        ([Call(key, b.window + 1, b)] + Burst(key, b.window + 1, b, b.limit - 1)), key, b.window, 2 * b.window)
  {
    var late := Burst(key, b.window, b, b.limit - 1)
      + ([Call(key, b.window + 1, b)] + Burst(key, b.window + 1, b, b.limit - 1));
    assert WorstCase(key, b)[1..] == late;
    assert Next(map[], key, 0, b) == map[key := Window(b.window, 1)];
  }
}
