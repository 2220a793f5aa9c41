// check_rate_limit (api/dependencies.py): counters in Redis or in a dictionary that is pruned.
module RateLimiter {
  import opened Prelude

  type Key = string

  const PRUNE_ABOVE := 5000

  datatype Window = Window(count: nat, resetAt: Time)

  type Table = map<Key, Window>

  datatype Request = Request(key: Key, maxRequests: int, windowSeconds: int, at: Time)

  predicate Open(t: Table, k: Key, now: Time) {
    k in t && now < t[k].resetAt
  }

  function Prune(t: Table, now: Time): Table {
    map k | k in t && now < t[k].resetAt :: t[k]
  }

  // The window after one more request.
  function Counted(t: Table, r: Request): Window {
    if Open(t, r.key, r.at) then t[r.key].(count := t[r.key].count + 1)
    else Window(1, r.at + r.windowSeconds as real)
  }

  // INCR, and EXPIRE on the first request of a window. An expired key is gone.
  function RedisStep(t: Table, r: Request): (Table, bool) {
    (t[r.key := Counted(t, r)], Counted(t, r).count <= r.maxRequests)
  }

  // The dictionary, pruned of expired entries when it holds more than `limit` keys.
  function MemoryStep(limit: nat, t: Table, r: Request): (Table, bool) {
    RedisStep(if |t| > limit then Prune(t, r.at) else t, r)
  }

  class RateLimiter {
    const useRedis: bool
    var redisKeys: Table
    var inMemoryRateLimits: Table

    constructor (useRedis: bool)
      ensures redisKeys == map[] && inMemoryRateLimits == map[] && this.useRedis == useRedis
    {
      this.useRedis := useRedis;
      redisKeys, inMemoryRateLimits := map[], map[];
    }

    method PruneExpired(now: Time)
      modifies this`inMemoryRateLimits
      ensures inMemoryRateLimits == Prune(old(inMemoryRateLimits), now)
    {
      ghost var before := inMemoryRateLimits;
      var expired := set k | k in inMemoryRateLimits && now >= inMemoryRateLimits[k].resetAt;
      while expired != {}
        invariant forall k <- inMemoryRateLimits :: k in before && inMemoryRateLimits[k] == before[k]
        invariant forall k <- before :: k !in inMemoryRateLimits ==> now >= before[k].resetAt
        invariant forall k :: k in expired <==> k in inMemoryRateLimits && now >= inMemoryRateLimits[k].resetAt
        decreases expired
      {
        var k :| k in expired;
        inMemoryRateLimits := inMemoryRateLimits - {k};
        expired := expired - {k};
      }
    }

    method CheckRateLimit(r: Request) returns (allowed: bool)
      modifies this
      ensures useRedis ==>
        (redisKeys, allowed) == RedisStep(old(redisKeys), r) && inMemoryRateLimits == old(inMemoryRateLimits)
      ensures !useRedis ==>
        && (inMemoryRateLimits, allowed) == MemoryStep(PRUNE_ABOVE, old(inMemoryRateLimits), r)
        && redisKeys == old(redisKeys)
    {
      if useRedis {
        var current := 1;
        if r.key in redisKeys && r.at < redisKeys[r.key].resetAt {
          current := redisKeys[r.key].count + 1;
          redisKeys := redisKeys[r.key := redisKeys[r.key].(count := current)];
        } else {
          redisKeys := redisKeys[r.key := Window(1, r.at + r.windowSeconds as real)];
        }
        return current <= r.maxRequests;
      }
      if |inMemoryRateLimits| > PRUNE_ABOVE {
        PruneExpired(r.at);
      }
      if r.key in inMemoryRateLimits {
        var w := inMemoryRateLimits[r.key];
        if r.at < w.resetAt {
          inMemoryRateLimits := inMemoryRateLimits[r.key := Window(w.count + 1, w.resetAt)];
          return w.count + 1 <= r.maxRequests;
        }
      }
      inMemoryRateLimits := inMemoryRateLimits[r.key := Window(1, r.at + r.windowSeconds as real)];
      return 1 <= r.maxRequests;
    }
  }

  // ---------- traces ----------

  predicate Monotone(now: Time, rs: seq<Request>)
    decreases |rs|
  {
    rs == [] || (now <= rs[0].at && Monotone(rs[0].at, rs[1..]))
  }

  function RedisDecisions(t: Table, rs: seq<Request>): seq<bool>
    decreases |rs|
  {
    if rs == [] then [] else
      var (t', ok) := RedisStep(t, rs[0]);
      [ok] + RedisDecisions(t', rs[1..])
  }

  function MemoryDecisions(limit: nat, t: Table, rs: seq<Request>): seq<bool>
    decreases |rs|
  {
    if rs == [] then [] else
      var (t', ok) := MemoryStep(limit, t, rs[0]);
      [ok] + MemoryDecisions(limit, t', rs[1..])
  }

  // Two tables that agree on the open windows decide alike from then on.
  ghost predicate SameOpen(t: Table, u: Table, now: Time) {
    forall k :: (Open(t, k, now) <==> Open(u, k, now)) && (Open(t, k, now) ==> t[k] == u[k])
  }

  lemma {:induction false} SameOpenDecidesAlike(limit: nat, t: Table, u: Table, now: Time, rs: seq<Request>)
    requires SameOpen(t, u, now) && Monotone(now, rs)
    ensures MemoryDecisions(limit, t, rs) == RedisDecisions(u, rs)
    decreases |rs|
  {
    if rs == [] {
    } else {
      var r := rs[0];
      assert Open(t, r.key, r.at) ==> Open(t, r.key, now);
      assert Open(u, r.key, r.at) ==> Open(u, r.key, now);
      var (t', a) := MemoryStep(limit, t, r);
      var (u', b) := RedisStep(u, r);
      assert SameOpen(t', u', r.at) by {
        forall k
          ensures (Open(t', k, r.at) <==> Open(u', k, r.at)) && (Open(t', k, r.at) ==> t'[k] == u'[k])
        {
          assert Open(t, k, r.at) ==> Open(t, k, now);
          assert Open(u, k, r.at) ==> Open(u, k, now);
        }
      }
      SameOpenDecidesAlike(limit, t', u', r.at, rs[1..]);
    }
  }

  // The two backends decide every trace alike, for any keys, limits and windows, and wherever the
  // dictionary is pruned: pruning changes no decision.
  lemma BackendsDecideAlike(limit: nat, rs: seq<Request>, start: Time)
    requires Monotone(start, rs)
    ensures MemoryDecisions(limit, map[], rs) == RedisDecisions(map[], rs)
  {
    SameOpenDecidesAlike(limit, map[], map[], start, rs);
  }

  // ---------- which requests are admitted, read off the request times ----------

  // The request that opened the window of k standing after the first n requests: the first one, then
  // each first request not earlier than the end of the window before. Decisions play no part.
  function Opening(rs: seq<Request>, k: Key, n: nat): Option<nat>
    requires n <= |rs|
    ensures Opening(rs, k, n).Some? ==> Opening(rs, k, n).value < n && rs[Opening(rs, k, n).value].key == k
  {
    if n == 0 then None
    else
      var o := Opening(rs, k, n - 1);
      if rs[n - 1].key != k then o
      else if o.Some? && rs[n - 1].at < rs[o.value].at + rs[o.value].windowSeconds as real then o
      else Some(n - 1)
  }

  // Requests for k among those from o up to n.
  function RequestsFrom(rs: seq<Request>, k: Key, o: nat, n: nat): nat
    requires o <= n <= |rs|
    decreases n
  {
    if n == o then 0 else RequestsFrom(rs, k, o, n - 1) + (if rs[n - 1].key == k then 1 else 0)
  }

  function TableAfter(t: Table, rs: seq<Request>, n: nat): Table
    requires n <= |rs|
  {
    if n == 0 then t else RedisStep(TableAfter(t, rs, n - 1), rs[n - 1]).0
  }

  lemma {:induction false} TableShift(t: Table, rs: seq<Request>, n: nat)
    requires rs != [] && n < |rs|
    ensures TableAfter(t, rs, n + 1) == TableAfter(RedisStep(t, rs[0]).0, rs[1..], n)
  {
    if n == 0 {
      assert TableAfter(t, rs, 0) == t;
    } else {
      TableShift(t, rs, n - 1);
    }
  }

  lemma {:induction false} DecisionAt(t: Table, rs: seq<Request>, i: nat)
    requires i < |rs|
    ensures |RedisDecisions(t, rs)| == |rs|
    ensures RedisDecisions(t, rs)[i] == RedisStep(TableAfter(t, rs, i), rs[i]).1
    decreases i
  {
    DecisionsLength(t, rs);
    if i == 0 {
    } else {
      DecisionAt(RedisStep(t, rs[0]).0, rs[1..], i - 1);
      TableShift(t, rs, i - 1);
      hide RedisStep;
    }
  }

  // The table holds exactly the standing window and the requests counted in it, refused ones included.
  lemma {:induction false} TableIsWindow(rs: seq<Request>, k: Key, n: nat)
    requires n <= |rs|
    ensures var o, t := Opening(rs, k, n), TableAfter(map[], rs, n);
      && (k in t <==> o.Some?)
      && (o.Some? ==> t[k] == Window(RequestsFrom(rs, k, o.value, n),
                                     rs[o.value].at + rs[o.value].windowSeconds as real))
  {
    if n == 0 {
    } else {
      TableIsWindow(rs, k, n - 1);
      assert RequestsFrom(rs, k, n - 1, n - 1) == 0;
    }
  }

  // On every trace, with any keys, limits and windows: a request is admitted exactly when at most its
  // limit of requests for its key lie between the opening of its window and itself, itself included.
  lemma AdmittedExactly(limit: nat, rs: seq<Request>, start: Time, i: nat)
    requires Monotone(start, rs) && i < |rs|
    ensures |MemoryDecisions(limit, map[], rs)| == |rs| && |RedisDecisions(map[], rs)| == |rs|
    ensures var o := Opening(rs, rs[i].key, i + 1);
      && o.Some?
      && (RedisDecisions(map[], rs)[i] <==> RequestsFrom(rs, rs[i].key, o.value, i + 1) <= rs[i].maxRequests)
      && (MemoryDecisions(limit, map[], rs)[i] <==> RequestsFrom(rs, rs[i].key, o.value, i + 1) <= rs[i].maxRequests)
  {
    BackendsDecideAlike(limit, rs, start);
    DecisionAt(map[], rs, i);
    TableIsWindow(rs, rs[i].key, i + 1);
    hide Opening, RequestsFrom, Open;
  }

  // ---------- how many requests a period admits ----------

  // The requests for key k all use the same limit and window.
  predicate FixedParameters(rs: seq<Request>, k: Key, maxRequests: int, windowSeconds: int) {
    forall r <- rs :: r.key == k ==> r.maxRequests == maxRequests && r.windowSeconds == windowSeconds
  }

  // Requests for k admitted at a time in [a, b).
  function AdmittedIn(rs: seq<Request>, decisions: seq<bool>, k: Key, a: Time, b: Time): nat
    requires |rs| == |decisions|
    decreases |rs|
  {
    if rs == [] then 0
    else (if rs[0].key == k && decisions[0] && a <= rs[0].at < b then 1 else 0)
         + AdmittedIn(rs[1..], decisions[1..], k, a, b)
  }

  lemma {:induction false} DecisionsLength(t: Table, rs: seq<Request>)
    ensures |RedisDecisions(t, rs)| == |rs|
    decreases |rs|
  {
    if rs == [] {
    } else {
      DecisionsLength(RedisStep(t, rs[0]).0, rs[1..]);
    }
  }

  // One request at a time.
  lemma AdmittedFirst(t: Table, r: Request, rest: seq<Request>, k: Key, a: Time, b: Time)
    ensures var (t', ok) := RedisStep(t, r);
      && |RedisDecisions(t, [r] + rest)| == |rest| + 1 && |RedisDecisions(t', rest)| == |rest|
      && AdmittedIn([r] + rest, RedisDecisions(t, [r] + rest), k, a, b)
         == (if r.key == k && ok && a <= r.at < b then 1 else 0) + AdmittedIn(rest, RedisDecisions(t', rest), k, a, b)
  {
    var (t', ok) := RedisStep(t, r);
    DecisionsLength(t', rest);
    assert ([r] + rest)[1..] == rest;
    assert RedisDecisions(t, [r] + rest) == [ok] + RedisDecisions(t', rest);
  }

  function AtLeastZero(n: int): nat {
    if n < 0 then 0 else n
  }

  // What the rest of [a, b) can still admit, seen from time now, where b = a + window.
  function Budget(t: Table, k: Key, maxRequests: int, now: Time, a: Time, b: Time): int {
    if now >= b then 0
    else if now < a then AtLeastZero(2 * maxRequests - 1)
    else if Open(t, k, now) then
      AtLeastZero(maxRequests - t[k].count) + (if t[k].resetAt >= b then 0 else AtLeastZero(maxRequests))
    else AtLeastZero(maxRequests)
  }

  predicate CountsPositive(t: Table, k: Key) {
    k in t ==> t[k].count >= 1
  }

  lemma BudgetShrinks(t: Table, k: Key, m: int, now: Time, later: Time, a: Time, b: Time)
    requires CountsPositive(t, k) && now <= later
    ensures 0 <= Budget(t, k, m, later, a, b) <= Budget(t, k, m, now, a, b)
  {
  }

  lemma BudgetPays(t: Table, r: Request, a: Time)
    requires CountsPositive(t, r.key)
    ensures var b := a + r.windowSeconds as real;
      var (t', ok) := RedisStep(t, r);
      Budget(t', r.key, r.maxRequests, r.at, a, b) + (if ok && a <= r.at < b then 1 else 0)
        <= Budget(t, r.key, r.maxRequests, r.at, a, b)
  {
  }

  lemma {:induction false} AdmittedWithinBudget(t: Table, rs: seq<Request>, k: Key, m: int, w: int, now: Time, a: Time)
    requires CountsPositive(t, k) && Monotone(now, rs) && FixedParameters(rs, k, m, w)
    requires |RedisDecisions(t, rs)| == |rs|
    ensures AdmittedIn(rs, RedisDecisions(t, rs), k, a, a + w as real) <= Budget(t, k, m, now, a, a + w as real)
    decreases |rs|
  {
    var b := a + w as real;
    if rs == [] {
      BudgetShrinks(t, k, m, now, now, a, b);
    } else {
      var r := rs[0];
      assert r in rs && rs == [r] + rs[1..];
      var (t', ok) := RedisStep(t, r);
      AdmittedFirst(t, r, rs[1..], k, a, b);
      hide AdmittedIn, RedisDecisions;
      AdmittedWithinBudget(t', rs[1..], k, m, w, r.at, a);
      BudgetShrinks(t, k, m, now, r.at, a, b);
      if r.key == k {
        BudgetPays(t, r, a);
      }
    }
  }

  // For a key with fixed parameters, any half-open interval as long as the window admits at most
  // 2 * max - 1 requests, on every trace, whatever other keys do and however often it is pruned.
  lemma WindowLengthBound(limit: nat, rs: seq<Request>, start: Time, k: Key, maxRequests: int, windowSeconds: int,
                          a: Time)
    requires Monotone(start, rs) && FixedParameters(rs, k, maxRequests, windowSeconds)
    ensures var decisions := MemoryDecisions(limit, map[], rs);
      |decisions| == |rs| &&
      AdmittedIn(rs, decisions, k, a, a + windowSeconds as real) <= AtLeastZero(2 * maxRequests - 1)
  {
    BackendsDecideAlike(limit, rs, start);
    DecisionsLength(map[], rs);
    AdmittedWithinBudget(map[], rs, k, maxRequests, windowSeconds, start, a);
  }

  // ---------- the bound is sharp ----------

  function Burst(n: nat, k: Key, m: int, w: int, at: Time): seq<Request> {
    if n == 0 then [] else [Request(k, m, w, at)] + Burst(n - 1, k, m, w, at)
  }

  // A burst inside an open window with room for it is admitted in full.
  lemma {:induction false} BurstAdmitted(t: Table, n: nat, k: Key, m: int, w: int, at: Time, rest: seq<Request>,
                                         a: Time, b: Time)
    requires Open(t, k, at) && t[k].count + n <= m && a <= at < b
    ensures var t', rs := t[k := Window(t[k].count + n, t[k].resetAt)], Burst(n, k, m, w, at) + rest;
      && |RedisDecisions(t, rs)| == |rs| && |RedisDecisions(t', rest)| == |rest|
      && AdmittedIn(rs, RedisDecisions(t, rs), k, a, b) == n + AdmittedIn(rest, RedisDecisions(t', rest), k, a, b)
    decreases n
  {
    if n == 0 {
      DecisionsLength(t, rest);
      assert Burst(n, k, m, w, at) + rest == rest && t[k := Window(t[k].count, t[k].resetAt)] == t;
    } else {
      var r, tail := Request(k, m, w, at), Burst(n - 1, k, m, w, at) + rest;
      assert Burst(n, k, m, w, at) + rest == [r] + tail;
      AdmittedFirst(t, r, tail, k, a, b);
      var t1 := RedisStep(t, r).0;
      assert t1 == t[k := Window(t[k].count + 1, t[k].resetAt)] && RedisStep(t, r).1;
      hide AdmittedIn, RedisDecisions, RedisStep, Burst;
      BurstAdmitted(t1, n - 1, k, m, w, at, rest, a, b);
      assert t1[k := Window(t1[k].count + (n - 1), t1[k].resetAt)] == t[k := Window(t[k].count + n, t[k].resetAt)];
    }
  }

  lemma {:induction false} BurstShape(n: nat, k: Key, m: int, w: int, at: Time, rest: seq<Request>)
    requires Monotone(at, rest) && FixedParameters(rest, k, m, w)
    ensures Monotone(at, Burst(n, k, m, w, at) + rest) && FixedParameters(Burst(n, k, m, w, at) + rest, k, m, w)
    ensures |Burst(n, k, m, w, at)| == n
    decreases n
  {
    var rs := Burst(n, k, m, w, at) + rest;
    if n == 0 {
      assert rs == rest;
    } else {
      BurstShape(n - 1, k, m, w, at, rest);
      assert rs[1..] == Burst(n - 1, k, m, w, at) + rest;
      assert forall r <- rs :: r == rs[0] || r in rs[1..];
    }
  }

  // A full burst at an instant with no open window is admitted.
  lemma NewWindowBurst(t: Table, k: Key, m: int, w: int, at: Time, a: Time, b: Time)
    requires m >= 1 && w >= 1 && !Open(t, k, at) && a <= at < b
    ensures var rs := [Request(k, m, w, at)] + Burst(m - 1, k, m, w, at);
      |RedisDecisions(t, rs)| == |rs| && AdmittedIn(rs, RedisDecisions(t, rs), k, a, b) == m
  {
    var tail := Burst(m - 1, k, m, w, at);
    var r := Request(k, m, w, at);
    assert tail + [] == tail;
    AdmittedFirst(t, r, tail, k, a, b);
    BurstShape(m - 1, k, m, w, at, []);
    BurstAdmitted(RedisStep(t, r).0, m - 1, k, m, w, at, [], a, b);
  }

  // The counter restarts at the end of its window instead of sliding: 2 * max - 1 requests are
  // admitted within one window length for every limit and window.
  lemma WindowLengthBoundIsSharp(k: Key, maxRequests: int, windowSeconds: int) returns (rs: seq<Request>, a: Time)
    requires maxRequests >= 1 && windowSeconds >= 1
    ensures Monotone(0.0, rs) && FixedParameters(rs, k, maxRequests, windowSeconds)
    ensures |RedisDecisions(map[], rs)| == |rs|
    ensures AdmittedIn(rs, RedisDecisions(map[], rs), k, a, a + windowSeconds as real) == 2 * maxRequests - 1
  {
    hide Monotone, FixedParameters;
    var m, w := maxRequests, windowSeconds;
    var end := w as real;
    a := end / 2.0;
    var next := [Request(k, m, w, end)] + Burst(m - 1, k, m, w, end);
    var late := Burst(m - 1, k, m, w, a) + next;
    rs := [Request(k, m, w, 0.0)] + late;
    SharpTraceShape(k, m, w, a);
    DecisionsLength(map[], rs);
    AdmittedFirst(map[], rs[0], late, k, a, a + end);
    var t1 := RedisStep(map[], rs[0]).0;
    assert t1 == map[k := Window(1, end)];
    hide AdmittedIn, RedisDecisions, RedisStep;
    BurstAdmitted(t1, m - 1, k, m, w, a, next, a, a + end);
    NewWindowBurst(t1[k := Window(m, end)], k, m, w, end, a, a + end);
  }

  // The documented sliding window: no interval of one window length admits more than the limit.
  ghost predicate SlidesOn(rs: seq<Request>, k: Key, maxRequests: int, windowSeconds: int, a: Time) {
    var decisions := RedisDecisions(map[], rs);
    |decisions| == |rs| && AdmittedIn(rs, decisions, k, a, a + windowSeconds as real) <= AtLeastZero(maxRequests)
  }

  ghost predicate AlwaysSlides(k: Key, maxRequests: int, windowSeconds: int) {
    forall rs: seq<Request>, start: Time, a: Time |
        Monotone(start, rs) && FixedParameters(rs, k, maxRequests, windowSeconds) ::
      SlidesOn(rs, k, maxRequests, windowSeconds, a)
  }

  // The fixed window keeps that promise for a limit of at most one, and for no other.
  lemma SlidesOnlyUpToOne(k: Key, maxRequests: int, windowSeconds: int)
    requires windowSeconds >= 1
    ensures AlwaysSlides(k, maxRequests, windowSeconds) <==> maxRequests <= 1
  {
    hide Monotone, FixedParameters;
    if maxRequests <= 1 {
      forall rs: seq<Request>, start: Time, a: Time |
          Monotone(start, rs) && FixedParameters(rs, k, maxRequests, windowSeconds)
        ensures SlidesOn(rs, k, maxRequests, windowSeconds, a)
      {
        DecisionsLength(map[], rs);
        AdmittedWithinBudget(map[], rs, k, maxRequests, windowSeconds, start, a);
      }
    } else {
      var rs, a := WindowLengthBoundIsSharp(k, maxRequests, windowSeconds);
      assert !SlidesOn(rs, k, maxRequests, windowSeconds, a);
    }
  }

  lemma SharpTraceShape(k: Key, m: int, w: int, a: Time)
    requires m >= 1 && w >= 1 && a == w as real / 2.0
    ensures var next := [Request(k, m, w, w as real)] + Burst(m - 1, k, m, w, w as real);
      var late := Burst(m - 1, k, m, w, a) + next;
      var rs := [Request(k, m, w, 0.0)] + late;
      Monotone(0.0, rs) && FixedParameters(rs, k, m, w) && |late| == m - 1 + |next|
  {
    var end := w as real;
    var tail := Burst(m - 1, k, m, w, end);
    var next := [Request(k, m, w, end)] + tail;
    var late := Burst(m - 1, k, m, w, a) + next;
    assert tail + [] == tail && next[1..] == tail;
    BurstShape(m - 1, k, m, w, end, []);
    BurstShape(m - 1, k, m, w, a, next);
    assert ([Request(k, m, w, 0.0)] + late)[1..] == late;
    MonotoneEarlier(0.0, a, late);
  }

  lemma MonotoneEarlier(now: Time, later: Time, rs: seq<Request>)
    requires now <= later && Monotone(later, rs)
    ensures Monotone(now, rs)
  {
  }
}
