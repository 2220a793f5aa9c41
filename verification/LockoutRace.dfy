// Login attempts on many workers that share the Redis counters (authenticator.py). Each worker checks
// the lock and records the failure in one go, but those of different workers interleave.
module LockoutRace {
  import opened Prelude
  import Lockout

  type UserId = Lockout.UserId
  type AttemptId = nat

  datatype State = State(
    failures: map<UserId, Lockout.Counter>,
    locks: map<UserId, Time>,
    inFlight: map<AttemptId, UserId>,
    now: Time)

  // An attempt passes the lock check, then its password is found wrong or right.
  datatype Step =
    | Pass(id: AttemptId, u: UserId)
    | Fail(id: AttemptId)
    | Succeed(id: AttemptId)
    | Unlock(u: UserId)
    | Wait(to: Time)

  // The attempts of u between check and record.
  function Flying(s: State, u: UserId): set<AttemptId> {
    set id | id in s.inFlight && s.inFlight[id] == u
  }

  // The part of the state that Redis holds; what a worker remembers of locks only refuses more.
  function Shared(s: State): Lockout.State {
    Lockout.State(true, map[], map[], s.failures, s.locks)
  }

  function WithShared(s: State, r: Lockout.State): State {
    s.(failures := r.redisFailures, locks := r.redisLocks)
  }

  // At most k attempts of a user are in flight at a time.
  predicate Enabled(k: nat, s: State, a: Step) {
    match a
    case Pass(id, u) => id !in s.inFlight && Lockout.RedisTtl(s.locks, u, s.now) <= 0 && |Flying(s, u)| < k
    case Fail(id) => id in s.inFlight
    case Succeed(id) => id in s.inFlight
    case Unlock(_) => true
    case Wait(to) => s.now <= to
  }

  function Apply(k: nat, s: State, a: Step): State
    requires Enabled(k, s, a)
  {
    match a
    case Pass(id, u) => s.(inFlight := s.inFlight[id := u])
    case Fail(id) =>
      WithShared(s, Lockout.Record(Shared(s), s.inFlight[id], s.now)).(inFlight := s.inFlight - {id})
    case Succeed(id) => WithShared(s, Lockout.Clear(Shared(s), s.inFlight[id])).(inFlight := s.inFlight - {id})
    case Unlock(u) => WithShared(s, Lockout.Clear(Shared(s), u))
    case Wait(to) => s.(now := to)
  }

  predicate Possible(k: nat, s: State, steps: seq<Step>)
    decreases |steps|
  {
    steps == [] || (Enabled(k, s, steps[0]) && Possible(k, Apply(k, s, steps[0]), steps[1..]))
  }

  function Run(k: nat, s: State, steps: seq<Step>): State
    requires Possible(k, s, steps)
    decreases |steps|
  {
    if steps == [] then s else Run(k, Apply(k, s, steps[0]), steps[1..])
  }

  const START := State(map[], map[], map[], 0.0)

  // Once a window has five failures it is locked to its end, so its count and the attempts still in
  // flight never exceed four and k.
  ghost predicate Inv(k: nat, s: State, u: UserId) {
    && |Flying(s, u)| <= k
    && (u in s.failures ==>
          var c := s.failures[u];
          && 1 <= c.count <= 4 + k && c.expires <= s.now + Lockout.WINDOW
          && (c.count >= 5 && s.now < c.expires ==>
                u in s.locks && s.locks[u] >= c.expires + 600.0 && c.count + |Flying(s, u)| <= 4 + k))
  }

  lemma FlyingAfter(k: nat, s: State, a: Step, u: UserId)
    requires Enabled(k, s, a)
    ensures var f, f' := Flying(s, u), Flying(Apply(k, s, a), u);
      if a.Pass? && a.u == u then f' == f + {a.id} && |f'| == |f| + 1
      else if (a.Fail? || a.Succeed?) && s.inFlight[a.id] == u then f' == f - {a.id} && |f'| == |f| - 1
      else f' == f
  {
    if a.Fail? || a.Succeed? {
      assert a.id in Flying(s, s.inFlight[a.id]);
    } else if a.Pass? {
      assert a.id !in Flying(s, a.u);
    }
  }

  lemma StepKeepsInv(k: nat, s: State, a: Step, u: UserId)
    requires k >= 1 && Inv(k, s, u) && Enabled(k, s, a)
    ensures Inv(k, Apply(k, s, a), u)
  {
    FlyingAfter(k, s, a, u);
    hide Flying;
  }

  lemma {:induction false} RunKeepsInv(k: nat, s: State, steps: seq<Step>, u: UserId)
    requires k >= 1 && Inv(k, s, u) && Possible(k, s, steps)
    ensures Inv(k, Run(k, s, steps), u)
    decreases |steps|
  {
    if steps == [] {
    } else {
      StepKeepsInv(k, s, steps[0], u);
      RunKeepsInv(k, Apply(k, s, steps[0]), steps[1..], u);
    }
  }

  // With at most k attempts of a user in flight, a failure window admits at most 4 + k failed checks,
  // on every interleaving. So the one-hour lock of the tenth takes six at once.
  lemma InFlightBound(k: nat, steps: seq<Step>, u: UserId)
    requires k >= 1 && Possible(k, START, steps)
    ensures var s := Run(k, START, steps);
      && (u in s.failures ==> s.failures[u].count <= 4 + k)
      && (Flying(s, u) != {} ==>
            var n := Lockout.Attempts(Shared(s), u, s.now);
            n <= 4 + k && (Lockout.LockSeconds(n) == 3600 ==> k >= 6))
  {
    assert Flying(START, u) == {};
    RunKeepsInv(k, START, steps, u);
  }

  // ---------- the bound is reached ----------

  function Fails(m: nat, k: nat): seq<Step>
    requires m <= k
    decreases k - m
  {
    if m == k then [] else [Fail(m)] + Fails(m + 1, k)
  }

  function Passes(m: nat, k: nat, u: UserId): seq<Step>
    requires m <= k
    decreases k - m
  {
    if m == k then Fails(0, k) else [Pass(m, u)] + Passes(m + 1, k, u)
  }

  // The first failures come one by one; then k attempts pass before any of them fails.
  function Rush(n: nat, k: nat, u: UserId): seq<Step>
    requires n <= 4
    decreases 4 - n
  {
    if n == 4 then Passes(0, k, u) else [Pass(0, u)] + ([Fail(0)] + Rush(n + 1, k, u))
  }

  function Ids(m: nat, k: nat): (ids: set<AttemptId>)
    requires m <= k
    ensures |ids| == k - m && forall id :: id in ids <==> m <= id < k
    decreases k - m
  {
    if m == k then {} else {m} + Ids(m + 1, k)
  }

  // n failures in a window opened at time 0, and attempts m to k - 1 in flight.
  predicate Stands(s: State, u: UserId, n: nat, m: nat, k: nat) {
    && m <= k && s.now == 0.0 && s.inFlight.Keys == Ids(m, k) && (forall id <- s.inFlight :: s.inFlight[id] == u)
    && (if n == 0 then u !in s.failures else u in s.failures && s.failures[u] == Lockout.Counter(n, Lockout.WINDOW))
    && (n < 5 ==> u !in s.locks)
  }

  lemma OneMore(k: nat, s: State, a: Step, rest: seq<Step>)
    requires Enabled(k, s, a) && Possible(k, Apply(k, s, a), rest)
    ensures Possible(k, s, [a] + rest) && Run(k, s, [a] + rest) == Run(k, Apply(k, s, a), rest)
  {
    assert ([a] + rest)[1..] == rest;
  }

  lemma FailStands(s: State, u: UserId, n: nat, m: nat, k: nat)
    requires m < k && Stands(s, u, n, m, k) && (n >= 4 || (m == 0 && k == 1))
    ensures Enabled(k, s, Fail(m)) && Stands(Apply(k, s, Fail(m)), u, n + 1, m + 1, k)
  {
    assert Ids(m, k) - {m} == Ids(m + 1, k);
    hide Ids;
  }

  lemma NextIds(m: nat)
    ensures Ids(0, m) + {m} == Ids(0, m + 1) && m !in Ids(0, m)
  {
  }

  lemma PassEnabled(s: State, u: UserId, n: nat, m: nat, k: nat)
    requires m < k && n <= 4 && Stands(s, u, n, 0, m)
    ensures Enabled(k, s, Pass(m, u))
  {
    FlyingIds(s, u, 0, m);
    hide Ids, Flying;
  }

  lemma PassStands(s: State, u: UserId, n: nat, m: nat, k: nat)
    requires m < k && n <= 4 && Stands(s, u, n, 0, m)
    ensures Enabled(k, s, Pass(m, u)) && Stands(Apply(k, s, Pass(m, u)), u, n, 0, m + 1)
  {
    PassEnabled(s, u, n, m, k);
    NextIds(m);
    hide Ids, Flying, Enabled, Lockout.Record, Lockout.Clear;
  }

  lemma {:induction false} FailsReach(s: State, u: UserId, m: nat, k: nat)
    requires m <= k && Stands(s, u, 4 + m, m, k)
    ensures Possible(k, s, Fails(m, k)) && Stands(Run(k, s, Fails(m, k)), u, 4 + k, k, k)
    decreases k - m
  {
    if m == k {
    } else {
      FailStands(s, u, 4 + m, m, k);
      hide Stands, Apply, Enabled;
      FailsReach(Apply(k, s, Fail(m)), u, m + 1, k);
      OneMore(k, s, Fail(m), Fails(m + 1, k));
    }
  }

  lemma FlyingIds(s: State, u: UserId, m: nat, k: nat)
    requires m <= k && s.inFlight.Keys == Ids(m, k) && forall id <- s.inFlight :: s.inFlight[id] == u
    ensures |Flying(s, u)| == k - m
  {
    assert Flying(s, u) == Ids(m, k);
  }

  lemma {:induction false} PassesReach(s: State, u: UserId, m: nat, k: nat)
    requires m <= k && Stands(s, u, 4, 0, m)
    ensures Possible(k, s, Passes(m, k, u)) && Stands(Run(k, s, Passes(m, k, u)), u, 4 + k, k, k)
    decreases k - m
  {
    if m == k {
      FailsReach(s, u, 0, k);
    } else {
      PassStands(s, u, 4, m, k);
      hide Stands, Apply, Enabled;
      PassesReach(Apply(k, s, Pass(m, u)), u, m + 1, k);
      OneMore(k, s, Pass(m, u), Passes(m + 1, k, u));
    }
  }

  lemma OnePassFails(s: State, u: UserId, n: nat, k: nat) returns (s1: State, s2: State)
    requires n < 4 && k >= 1 && Stands(s, u, n, 0, 0)
    ensures Enabled(k, s, Pass(0, u)) && s1 == Apply(k, s, Pass(0, u))
    ensures Enabled(k, s1, Fail(0)) && s2 == Apply(k, s1, Fail(0)) && Stands(s2, u, n + 1, 0, 0)
  {
    PassStands(s, u, n, 0, k);
    s1 := Apply(k, s, Pass(0, u));
    FailStands(s1, u, n, 0, 1);
    s2 := Apply(k, s1, Fail(0));
    assert s2 == Apply(1, s1, Fail(0));
    hide Apply, Lockout.Record, Lockout.Clear;
  }

  lemma {:induction false} RushReaches(s: State, u: UserId, n: nat, k: nat)
    requires n <= 4 && k >= 1 && Stands(s, u, n, 0, 0)
    ensures Possible(k, s, Rush(n, k, u)) && Stands(Run(k, s, Rush(n, k, u)), u, 4 + k, k, k)
    decreases 4 - n
  {
    if n == 4 {
      PassesReach(s, u, 0, k);
    } else {
      var s1, s2 := OnePassFails(s, u, n, k);
      hide Stands, Apply, Enabled;
      RushReaches(s2, u, n + 1, k);
      OneMore(k, s1, Fail(0), Rush(n + 1, k, u));
      OneMore(k, s, Pass(0, u), [Fail(0)] + Rush(n + 1, k, u));
    }
  }

  // For every user and k, some interleaving brings the counter to 4 + k.
  lemma InFlightBoundIsReached(k: nat, u: UserId)
    requires k >= 1
    ensures Possible(k, START, Rush(0, k, u))
    ensures var s := Run(k, START, Rush(0, k, u)); u in s.failures && s.failures[u].count == 4 + k
  {
    RushReaches(START, u, 0, k);
  }
}
