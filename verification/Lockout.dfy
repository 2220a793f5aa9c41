// Account lockout (authenticator.py). The lock check and the failure record of one login attempt
// are one step.
module Lockout {
  import opened Prelude

  type UserId = nat

  const LOCK_THRESHOLD := 5
  const ESCALATION := 10
  const SHORT_LOCK := 900
  const LONG_LOCK := 3600
  const WINDOW: Time := 300.0

  // A Redis counter with the instant its key expires.
  datatype Counter = Counter(count: nat, expires: Time)

  datatype State = State(
    useRedis: bool,
    failedAttempts: map<UserId, nat>,
    lockouts: map<UserId, int>,
    redisFailures: map<UserId, Counter>,
    redisLocks: map<UserId, Time>)

  // What the repository returns for an identifier.
  datatype Account = Account(id: UserId, isActive: bool)

  datatype Outcome =
    | Locked(remaining: int)
    | Failed(attempts: nat, lockoutSeconds: int)
    | Success

  datatype Answer = InvalidCredentials | AccountInactive | Tried(outcome: Outcome)

  // The TTL command: remaining seconds rounded to the nearest, or -2 when the key is gone.
  function RedisTtl(locks: map<UserId, Time>, u: UserId, now: Time): int {
    if u in locks && now < locks[u] then (locks[u] - now + 0.5).Floor else -2
  }

  function CheckLock(s: State, u: UserId, now: Time): Option<int> {
    if s.useRedis && RedisTtl(s.redisLocks, u, now) > 0 then Some(RedisTtl(s.redisLocks, u, now))
    else if u in s.lockouts && s.lockouts[u] != 0 && s.lockouts[u] > WholeSeconds(now) then
      Some(s.lockouts[u] - WholeSeconds(now))
    else None
  }

  // The check forgets an in-memory lock that has run out.
  function AfterCheck(s: State, u: UserId, now: Time): State {
    if CheckLock(s, u, now).None? && u in s.lockouts && s.lockouts[u] != 0 then s.(lockouts := s.lockouts - {u}) else s
  }

  predicate LiveCounter(s: State, u: UserId, now: Time) {
    u in s.redisFailures && now < s.redisFailures[u].expires
  }

  function Attempts(s: State, u: UserId, now: Time): nat {
    if s.useRedis then
      if LiveCounter(s, u, now) then s.redisFailures[u].count + 1 else 1
    else if u in s.failedAttempts then s.failedAttempts[u] + 1 else 1
  }

  function LockSeconds(attempts: nat): int {
    if attempts < LOCK_THRESHOLD then 0 else if attempts < ESCALATION then SHORT_LOCK else LONG_LOCK
  }

  function Record(s: State, u: UserId, now: Time): State {
    var n := Attempts(s, u, now);
    var counted :=
      if s.useRedis then
        s.(redisFailures := s.redisFailures[u := Counter(n, if n == 1 then now + WINDOW else s.redisFailures[u].expires)])
      else s.(failedAttempts := s.failedAttempts[u := n]);
    if n < LOCK_THRESHOLD then counted
    else
      counted.(lockouts := s.lockouts[u := WholeSeconds(now) + LockSeconds(n)],
               redisLocks := if s.useRedis then s.redisLocks[u := now + LockSeconds(n) as real] else s.redisLocks)
  }

  function Clear(s: State, u: UserId): State {
    s.(failedAttempts := s.failedAttempts - {u}, lockouts := s.lockouts - {u},
       redisFailures := if s.useRedis then s.redisFailures - {u} else s.redisFailures,
       redisLocks := if s.useRedis then s.redisLocks - {u} else s.redisLocks)
  }

  // One login attempt of a known, active user.
  function Attempt(s: State, u: UserId, passwordOk: bool, now: Time): (State, Outcome) {
    var lock := CheckLock(s, u, now);
    if lock.Some? then (s, Locked(lock.value))
    else
      var s' := AfterCheck(s, u, now);
      if passwordOk then (Clear(s', u), Success)
      else (Record(s', u, now), Failed(Attempts(s', u, now), LockSeconds(Attempts(s', u, now))))
  }

  class Authenticator {
    const useRedis: bool
    var inMemoryFailedAttempts: map<UserId, nat>
    var inMemoryLockouts: map<UserId, int>
    var redisFailures: map<UserId, Counter>
    var redisLocks: map<UserId, Time>

    constructor (useRedis: bool)
      ensures Contents() == State(useRedis, map[], map[], map[], map[])
    {
      this.useRedis := useRedis;
      inMemoryFailedAttempts, inMemoryLockouts := map[], map[];
      redisFailures, redisLocks := map[], map[];
    }

    ghost function Contents(): State
      reads this
    {
      State(useRedis, inMemoryFailedAttempts, inMemoryLockouts, redisFailures, redisLocks)
    }

    method CheckAccountLockout(u: UserId, now: Time) returns (remaining: Option<int>)
      modifies this
      ensures remaining == CheckLock(old(Contents()), u, now)
      ensures Contents() == AfterCheck(old(Contents()), u, now)
    {
      if useRedis {
        var ttl := RedisTtl(redisLocks, u, now);
        if ttl > 0 {
          return Some(ttl);
        }
      }
      if u in inMemoryLockouts && inMemoryLockouts[u] != 0 {
        var lockExp, nowTs := inMemoryLockouts[u], WholeSeconds(now);
        if lockExp > nowTs {
          return Some(lockExp - nowTs);
        }
        inMemoryLockouts := inMemoryLockouts - {u};
      }
      return None;
    }

    method RecordFailedAttempt(u: UserId, now: Time) returns (attempts: nat, lockoutSeconds: int)
      modifies this
      ensures attempts == Attempts(old(Contents()), u, now) && lockoutSeconds == LockSeconds(attempts)
      ensures Contents() == Record(old(Contents()), u, now)
    {
      if useRedis {
        if u in redisFailures && now < redisFailures[u].expires {
          attempts := redisFailures[u].count + 1;
          redisFailures := redisFailures[u := redisFailures[u].(count := attempts)];
        } else {
          attempts := 1;
          redisFailures := redisFailures[u := Counter(1, now + WINDOW)];
        }
        if attempts == 1 {
          redisFailures := redisFailures[u := Counter(1, now + WINDOW)];
        }
      } else {
        attempts := (if u in inMemoryFailedAttempts then inMemoryFailedAttempts[u] else 0) + 1;
        inMemoryFailedAttempts := inMemoryFailedAttempts[u := attempts];
      }
      lockoutSeconds := 0;
      if attempts >= LOCK_THRESHOLD {
        lockoutSeconds := if attempts < ESCALATION then SHORT_LOCK else LONG_LOCK;
        if useRedis {
          redisLocks := redisLocks[u := now + lockoutSeconds as real];
        }
        inMemoryLockouts := inMemoryLockouts[u := WholeSeconds(now) + lockoutSeconds];
      }
    }

    method ClearFailedAttempts(u: UserId)
      modifies this
      ensures Contents() == Clear(old(Contents()), u)
    {
      if useRedis {
        redisFailures := redisFailures - {u};
        redisLocks := redisLocks - {u};
      }
      inMemoryFailedAttempts := inMemoryFailedAttempts - {u};
      inMemoryLockouts := inMemoryLockouts - {u};
    }

    // An unknown or inactive user is turned away without touching any counter.
    method AuthenticateCredentials(user: Option<Account>, passwordOk: bool, now: Time) returns (answer: Answer)
      modifies this
      ensures if user.None? then answer == InvalidCredentials && Contents() == old(Contents())
        else if !user.value.isActive then answer == AccountInactive && Contents() == old(Contents())
        else answer.Tried? && (Contents(), answer.outcome) == Attempt(old(Contents()), user.value.id, passwordOk, now)
    {
      if user.None? {
        return InvalidCredentials;
      }
      var u := user.value.id;
      if !user.value.isActive {
        return AccountInactive;
      }
      var remaining := CheckAccountLockout(u, now);
      if remaining.Some? {
        return Tried(Locked(remaining.value));
      }
      if !passwordOk {
        var attempts, seconds := RecordFailedAttempt(u, now);
        return Tried(Failed(attempts, seconds));
      }
      ClearFailedAttempts(u);
      return Tried(Success);
    }
  }

  // ---------- traces ----------

  datatype Event =
    | Login(u: UserId, passwordOk: bool, at: Time)
    | Unlock(u: UserId, at: Time)

  // The state with, for each user, the times of the failed password checks since the last success
  // or unlock.
  datatype History = History(s: State, failures: map<UserId, seq<Time>>, now: Time)

  function Failures(h: History, u: UserId): seq<Time> {
    if u in h.failures then h.failures[u] else []
  }

  function Step(h: History, e: Event): History {
    match e
    case Login(u, ok, at) =>
      var (s', out) := Attempt(h.s, u, ok, at);
      var fs := match out
        case Locked(_) => Failures(h, u)
        case Failed(_, _) => Failures(h, u) + [at]
        case Success => [];
      History(s', h.failures[u := fs], at)
    case Unlock(u, at) => History(Clear(h.s, u), h.failures[u := []], at)
  }

  function Run(h: History, es: seq<Event>): History
    decreases |es|
  {
    if es == [] then h else Run(Step(h, es[0]), es[1..])
  }

  predicate Monotone(now: Time, es: seq<Event>)
    decreases |es|
  {
    es == [] || (now <= es[0].at && Monotone(es[0].at, es[1..]))
  }

  function Start(useRedis: bool): History {
    History(State(useRedis, map[], map[], map[], map[]), map[], 0.0)
  }

  // ---------- without Redis ----------

  // Seconds of lock between the fifth failed check and the n-th.
  function LockTotal(n: nat): int {
    if n <= LOCK_THRESHOLD then 0 else LockTotal(n - 1) + LockSeconds(n - 1)
  }

  lemma {:induction false} LockTotalClosedForm(n: nat)
    requires n >= LOCK_THRESHOLD
    ensures LockTotal(n) == if n <= ESCALATION then SHORT_LOCK * (n - 5) else 4500 + LONG_LOCK * (n - 10)
  {
    if n == LOCK_THRESHOLD {
    } else {
      LockTotalClosedForm(n - 1);
    }
  }

  ghost predicate Spaced(fs: seq<Time>) {
    forall k :: 0 < k < |fs| ==> WholeSeconds(fs[k]) >= WholeSeconds(fs[k - 1]) + LockSeconds(k)
  }

  // The lock of the last failure is stored or has run out.
  ghost predicate MemoryUserInv(h: History, u: UserId) {
    var fs := Failures(h, u);
    && Spaced(fs)
    && (u in h.s.failedAttempts <==> fs != [])
    && (fs != [] ==> h.s.failedAttempts[u] == |fs| && 0.0 <= fs[|fs| - 1] <= h.now)
    && (u in h.s.lockouts ==> |fs| >= LOCK_THRESHOLD && h.s.lockouts[u] == WholeSeconds(fs[|fs| - 1]) + LockSeconds(|fs|))
    && (|fs| >= LOCK_THRESHOLD && u !in h.s.lockouts ==>
          WholeSeconds(h.now) >= WholeSeconds(fs[|fs| - 1]) + LockSeconds(|fs|))
  }

  ghost predicate MemoryInv(h: History) {
    !h.s.useRedis && h.now >= 0.0 && forall u :: MemoryUserInv(h, u)
  }

  lemma OthersUntouched(h: History, e: Event, u: UserId)
    requires MemoryUserInv(h, u) && u != e.u && h.now <= e.at
    ensures MemoryUserInv(Step(h, e), u)
  {
  }

  lemma MemoryFailure(h: History, u: UserId, at: Time)
    requires !h.s.useRedis && MemoryUserInv(h, u) && 0.0 <= h.now <= at
    requires Attempt(h.s, u, false, at).1.Failed?
    ensures MemoryUserInv(Step(h, Login(u, false, at)), u)
  {
  }

  lemma MemoryStep(h: History, e: Event)
    requires MemoryInv(h) && h.now <= e.at
    ensures MemoryInv(Step(h, e))
  {
    forall u
      ensures MemoryUserInv(Step(h, e), u)
    {
      assert MemoryUserInv(h, u);
      if u != e.u {
        OthersUntouched(h, e, u);
      } else if e.Login? && Attempt(h.s, u, e.passwordOk, e.at).1.Failed? {
        MemoryFailure(h, u, e.at);
      }
    }
  }

  lemma {:induction false} MemoryRun(h: History, es: seq<Event>)
    requires MemoryInv(h) && Monotone(h.now, es)
    ensures MemoryInv(Run(h, es))
    decreases |es|
  {
    if es == [] {
    } else {
      MemoryStep(h, es[0]);
      MemoryRun(Step(h, es[0]), es[1..]);
    }
  }

  lemma {:induction false} SpacedTotal(fs: seq<Time>, n: nat)
    requires Spaced(fs) && LOCK_THRESHOLD <= n <= |fs|
    ensures WholeSeconds(fs[n - 1]) - WholeSeconds(fs[4]) >= LockTotal(n)
  {
    if n == LOCK_THRESHOLD {
    } else {
      SpacedTotal(fs, n - 1);
    }
  }

  // Without Redis, between two successes or unlocks of a user, whatever the other users do: from
  // the tenth on, the whole second of the n-th failed password check is at least
  // 4500 + 3600 (n - 10) after that of the fifth, so less than one second can be missing in real time.
  lemma MemoryLockoutBound(es: seq<Event>, u: UserId, n: nat)
    requires Monotone(0.0, es)
    requires var fs := Failures(Run(Start(false), es), u); 10 <= n <= |fs|
    ensures var fs := Failures(Run(Start(false), es), u);
      && WholeSeconds(fs[n - 1]) - WholeSeconds(fs[4]) >= 4500 + 3600 * (n - 10)
      && fs[n - 1] - fs[4] > (4500 + 3600 * (n - 10)) as real - 1.0
  {
    MemoryRun(Start(false), es);
    var h := Run(Start(false), es);
    assert MemoryUserInv(h, u);
    SpacedTotal(Failures(h, u), n);
    LockTotalClosedForm(n);
  }

  // Without Redis every answer is that of the streak: after n failures, the last at time t, an attempt
  // is refused exactly if n >= 5 and the lock of the n-th failure has not run out in whole seconds, and
  // is told what remains of it; otherwise a right password succeeds and a wrong one is the next failure.
  lemma MemoryAnswersExactly(es: seq<Event>, u: UserId, passwordOk: bool, at: Time)
    requires Monotone(0.0, es) && Run(Start(false), es).now <= at
    ensures var h := Run(Start(false), es);
      var fs := Failures(h, u);
      var until := if fs == [] then 0 else WholeSeconds(fs[|fs| - 1]) + if |fs| < 10 then 900 else 3600;
      Attempt(h.s, u, passwordOk, at).1 ==
        if |fs| >= 5 && WholeSeconds(at) < until then Locked(until - WholeSeconds(at))
        else if passwordOk then Success
        else Failed(|fs| + 1, if |fs| + 1 < 5 then 0 else if |fs| + 1 < 10 then 900 else 3600)
  {
    MemoryRun(Start(false), es);
    assert MemoryUserInv(Run(Start(false), es), u);
  }

  // ---------- with Redis ----------

  // The failure window that led to a lock closes 600 s before the lock ends.
  ghost predicate RedisUserInv(s: State, u: UserId) {
    u in s.redisFailures ==>
      && 1 <= s.redisFailures[u].count <= LOCK_THRESHOLD
      && (s.redisFailures[u].count == LOCK_THRESHOLD ==>
            u in s.redisLocks && s.redisLocks[u] >= s.redisFailures[u].expires + 600.0)
  }

  ghost predicate RedisInv(h: History) {
    && h.s.useRedis
    && (forall u :: RedisUserInv(h.s, u))
    && (forall u <- h.s.redisFailures :: h.s.redisFailures[u].expires <= h.now + WINDOW)
  }

  // While the counter stands at five the user is locked, so the counter cannot reach six.
  lemma FullCounterIsLocked(s: State, u: UserId, now: Time)
    requires s.useRedis && RedisUserInv(s, u) && LiveCounter(s, u, now) && s.redisFailures[u].count == LOCK_THRESHOLD
    ensures CheckLock(s, u, now).Some?
  {
  }

  lemma RedisStep(h: History, e: Event)
    requires RedisInv(h) && h.now <= e.at
    ensures RedisInv(Step(h, e))
    ensures e.Login? && Attempt(h.s, e.u, e.passwordOk, e.at).1.Failed? ==>
      var out := Attempt(h.s, e.u, e.passwordOk, e.at).1;
      1 <= out.attempts <= LOCK_THRESHOLD && (out.lockoutSeconds == 0 || out.lockoutSeconds == SHORT_LOCK)
  {
    var h' := Step(h, e);
    forall u
      ensures RedisUserInv(h'.s, u)
    {
      assert RedisUserInv(h.s, u);
    }
    assert RedisUserInv(h.s, e.u);
    if LiveCounter(h.s, e.u, e.at) && h.s.redisFailures[e.u].count == LOCK_THRESHOLD {
      FullCounterIsLocked(h.s, e.u, e.at);
    }
  }

  lemma {:induction false} RedisRun(h: History, es: seq<Event>)
    requires RedisInv(h) && Monotone(h.now, es)
    ensures RedisInv(Run(h, es))
    decreases |es|
  {
    if es == [] {
    } else {
      RedisStep(h, es[0]);
      RedisRun(Step(h, es[0]), es[1..]);
    }
  }

  // With Redis, on every trace: a failure window admits at most five failed checks, and the
  // one-hour lock of the tenth attempt is never reached.
  lemma RedisWindowBound(es: seq<Event>, u: UserId, passwordOk: bool, at: Time)
    requires Monotone(0.0, es) && Run(Start(true), es).now <= at
    ensures var h := Run(Start(true), es);
      && (u in h.s.redisFailures ==> 1 <= h.s.redisFailures[u].count <= 5)
      && (var out := Attempt(h.s, u, passwordOk, at).1;
          out.Failed? ==> 1 <= out.attempts <= 5 && out.lockoutSeconds == if out.attempts == 5 then 900 else 0)
  {
    RedisRun(Start(true), es);
    var h := Run(Start(true), es);
    assert RedisUserInv(h.s, u);
    RedisStep(h, Login(u, passwordOk, at));
  }

  // The shared entries of u are the same.
  predicate SameFor(s: State, s': State, u: UserId) {
    && s.useRedis == s'.useRedis
    && (u in s.redisFailures <==> u in s'.redisFailures)
    && (u in s.redisFailures ==> s.redisFailures[u] == s'.redisFailures[u])
    && (u in s.redisLocks <==> u in s'.redisLocks) && (u in s.redisLocks ==> s.redisLocks[u] == s'.redisLocks[u])
    && (u in s.lockouts <==> u in s'.lockouts) && (u in s.lockouts ==> s.lockouts[u] == s'.lockouts[u])
  }

  lemma RecordOthers(s: State, v: UserId, u: UserId, now: Time)
    requires v != u
    ensures SameFor(s, Record(s, v, now), u)
  {
  }

  lemma CheckAndClearOthers(s: State, v: UserId, u: UserId, now: Time)
    requires v != u
    ensures SameFor(s, AfterCheck(s, v, now), u) && SameFor(s, Clear(s, v), u)
  {
  }

  lemma OthersSame(h: History, e: Event, u: UserId)
    requires e.u != u
    ensures SameFor(h.s, Step(h, e).s, u) && Failures(Step(h, e), u) == Failures(h, u)
  {
    var s := AfterCheck(h.s, e.u, e.at);
    CheckAndClearOthers(h.s, e.u, u, e.at);
    CheckAndClearOthers(s, e.u, u, e.at);
    RecordOthers(s, e.u, u, e.at);
    var s' := Step(h, e).s;
    assert s' == h.s || s' == Clear(h.s, e.u) || s' == Clear(s, e.u) || s' == Record(s, e.u, e.at);
    assert Failures(Step(h, e), u) == Failures(h, u);
    hide Step, Record, Clear, AfterCheck, Attempt;
  }

  // ---------- with Redis: every answer, read off the failure times ----------

  // The failure that opened the window of the last one: the first, then each first failure at least
  // 300 s after the opening before.
  function Opening(fs: seq<Time>): (o: nat)
    requires fs != []
    ensures o < |fs|
    decreases |fs|
  {
    if |fs| == 1 then 0
    else
      var before := fs[..|fs| - 1];
      if fs[|fs| - 1] < before[Opening(before)] + 300.0 then Opening(before) else |fs| - 1
  }

  // Failures of the last window, the last one included.
  function InWindow(fs: seq<Time>): nat
    requires fs != []
  {
    |fs| - Opening(fs)
  }

  // The last failure that was the fifth of its window.
  function LastFifth(fs: seq<Time>): (f: Option<nat>)
    ensures f.Some? ==> f.value < |fs|
    decreases |fs|
  {
    if fs == [] then None
    else if InWindow(fs) == 5 then Some(|fs| - 1)
    else LastFifth(fs[..|fs| - 1])
  }

  predicate IsFifth(fs: seq<Time>, j: nat)
    requires j < |fs|
  {
    InWindow(fs[..j + 1]) == 5
  }

  // The 900 s lock set at time t is in force: by the rounded Redis time to live, or by whole seconds.
  predicate LockRuns(t: Time, at: Time) {
    at <= t + 899.5 || WholeSeconds(at) < WholeSeconds(t) + 900
  }

  // What is told to remain of it.
  function Remaining(t: Time, at: Time): int {
    if at <= t + 899.5 then (t + 900.0 - at + 0.5).Floor else WholeSeconds(t) + 900 - WholeSeconds(at)
  }

  ghost predicate Rising(fs: seq<Time>, now: Time) {
    && (forall i, j | 0 <= i <= j < |fs| :: fs[i] <= fs[j])
    && (fs != [] ==> fs[|fs| - 1] <= now)
  }

  lemma {:induction false} LastFifthIsLast(fs: seq<Time>, j: nat)
    requires j < |fs| && IsFifth(fs, j)
    ensures LastFifth(fs).Some? && j <= LastFifth(fs).value
    decreases |fs|
  {
    if j == |fs| - 1 {
      assert fs[..j + 1] == fs;
    } else if InWindow(fs) == 5 {
    } else {
      assert fs[..|fs| - 1][..j + 1] == fs[..j + 1];
      LastFifthIsLast(fs[..|fs| - 1], j);
    }
  }

  lemma {:induction false} LastFifthIsFifth(fs: seq<Time>)
    requires LastFifth(fs).Some?
    ensures IsFifth(fs, LastFifth(fs).value)
    decreases |fs|
  {
    if InWindow(fs) == 5 {
      assert fs[..|fs|] == fs;
    } else {
      var before := fs[..|fs| - 1];
      LastFifthIsFifth(before);
      assert before[..LastFifth(before).value + 1] == fs[..LastFifth(before).value + 1];
    }
  }

  // Counter and locks of u are what the failure times say.
  ghost predicate CounterExact(s: State, fs: seq<Time>, u: UserId) {
    && (u in s.redisFailures <==> fs != [])
    && (fs != [] ==> s.redisFailures[u] == Counter(InWindow(fs), fs[Opening(fs)] + 300.0))
  }

  ghost predicate LocksExact(s: State, fs: seq<Time>, u: UserId, now: Time) {
    match LastFifth(fs)
    case None => u !in s.redisLocks && u !in s.lockouts
    case Some(j) =>
      && u in s.redisLocks && s.redisLocks[u] == fs[j] + 900.0
      && (if u in s.lockouts then s.lockouts[u] == WholeSeconds(fs[j]) + 900
          else WholeSeconds(fs[j]) + 900 <= WholeSeconds(now))
  }

  ghost predicate RedisExact(h: History, u: UserId) {
    var fs := Failures(h, u);
    && h.s.useRedis && 0.0 <= h.now && Rising(fs, h.now) && (forall t <- fs :: t >= 0.0)
    && CounterExact(h.s, fs, u) && LocksExact(h.s, fs, u, h.now)
  }

  lemma OneMoreFailure(fs: seq<Time>, at: Time)
    ensures var fs' := fs + [at];
      && (Opening(fs') == if fs != [] && at < fs[Opening(fs)] + 300.0 then Opening(fs) else |fs|)
      && LastFifth(fs') == if InWindow(fs') == 5 then Some(|fs|) else LastFifth(fs)
  {
    assert (fs + [at])[..|fs|] == fs;
  }

  // The locks answer exactly by the last fifth failure.
  lemma LockedExactly(s: State, fs: seq<Time>, u: UserId, now: Time, at: Time)
    requires s.useRedis && LocksExact(s, fs, u, now) && 0.0 <= now <= at && forall t <- fs :: t >= 0.0
    ensures CheckLock(s, u, at).Some? <==> LastFifth(fs).Some? && LockRuns(fs[LastFifth(fs).value], at)
    ensures CheckLock(s, u, at).Some? ==> CheckLock(s, u, at).value == Remaining(fs[LastFifth(fs).value], at)
  {
    hide LastFifth;
    if LastFifth(fs).Some? {
      assert fs[LastFifth(fs).value] in fs;
    }
  }

  lemma AttemptsExact(s: State, fs: seq<Time>, u: UserId, at: Time)
    requires s.useRedis && CounterExact(s, fs, u)
    ensures Attempts(s, u, at) == InWindow(fs + [at])
    ensures CounterExact(Record(s, u, at), fs + [at], u)
  {
    OneMoreFailure(fs, at);
    hide Opening, LastFifth;
  }

  lemma RecordLocks(s: State, fs: seq<Time>, u: UserId, at: Time)
    requires s.useRedis && LocksExact(s, fs, u, at) && Attempts(s, u, at) == InWindow(fs + [at]) <= 5
    ensures LocksExact(Record(s, u, at), fs + [at], u, at)
  {
    OneMoreFailure(fs, at);
    hide Opening, LastFifth, InWindow;
  }

  // Time passes, and the check forgets an in-memory lock that has run out.
  lemma AfterCheckExact(s: State, fs: seq<Time>, u: UserId, now: Time, at: Time)
    requires s.useRedis && CounterExact(s, fs, u) && LocksExact(s, fs, u, now) && now <= at
    ensures CounterExact(AfterCheck(s, u, at), fs, u) && LocksExact(AfterCheck(s, u, at), fs, u, at)
    ensures LocksExact(s, fs, u, at)
  {
    hide Opening, LastFifth, InWindow;
  }

  lemma RecordKeepsExact(h: History, u: UserId, at: Time)
    requires RedisExact(h, u) && h.now <= at && RedisUserInv(h.s, u) && CheckLock(h.s, u, at).None?
    ensures RedisExact(Step(h, Login(u, false, at)), u)
    ensures Attempts(h.s, u, at) == InWindow(Failures(h, u) + [at])
  {
    var fs, s := Failures(h, u), AfterCheck(h.s, u, at);
    AttemptsExact(h.s, fs, u, at);
    AfterCheckExact(h.s, fs, u, h.now, at);
    AttemptsExact(s, fs, u, at);
    if LiveCounter(h.s, u, at) && h.s.redisFailures[u].count == LOCK_THRESHOLD {
      FullCounterIsLocked(h.s, u, at);
    }
    RecordLocks(s, fs, u, at);
    var h' := Step(h, Login(u, false, at));
    assert Failures(h', u) == fs + [at] && h'.s == Record(s, u, at) && h'.now == at && h'.s.useRedis;
    hide LastFifth, Opening, Record, CheckLock, CounterExact, LocksExact, Step, AfterCheck;
  }

  lemma QuietKeepsExact(h: History, h': History, u: UserId)
    requires RedisExact(h, u) && h.now <= h'.now && Failures(h', u) == Failures(h, u) && SameFor(h.s, h'.s, u)
    ensures RedisExact(h', u)
  {
    AfterCheckExact(h.s, Failures(h, u), u, h.now, h'.now);
    hide LastFifth, Opening, AfterCheck;
  }

  lemma ExactStep(h: History, e: Event, u: UserId)
    requires RedisInv(h) && RedisExact(h, u) && h.now <= e.at
    ensures RedisExact(Step(h, e), u)
  {
    var h' := Step(h, e);
    assert RedisUserInv(h.s, u);
    if e.u != u {
      OthersSame(h, e, u);
      QuietKeepsExact(h, h', u);
    } else if e.Login? && CheckLock(h.s, u, e.at).Some? {
      assert h'.s == h.s && Failures(h', u) == Failures(h, u);
      QuietKeepsExact(h, h', u);
    } else if e.Login? && !e.passwordOk {
      RecordKeepsExact(h, u, e.at);
    } else {
      assert Failures(h', u) == [];
    }
    hide RedisInv, LastFifth, Opening;
  }

  lemma {:induction false} ExactRun(h: History, es: seq<Event>, u: UserId)
    requires RedisInv(h) && RedisExact(h, u) && Monotone(h.now, es)
    ensures RedisExact(Run(h, es), u)
    decreases |es|
  {
    if es == [] {
    } else {
      RedisStep(h, es[0]);
      ExactStep(h, es[0], u);
      ExactRun(Step(h, es[0]), es[1..], u);
    }
  }

  // With Redis, on every trace: an attempt is refused exactly while the lock of a fifth failure with
  // no later success or unlock runs; otherwise a right password succeeds, and a wrong one is counted
  // with the failures since the opening of its window and the last success or unlock.
  lemma RedisAnswersExactly(es: seq<Event>, u: UserId, passwordOk: bool, at: Time)
    requires Monotone(0.0, es) && Run(Start(true), es).now <= at
    ensures var h := Run(Start(true), es);
      var fs, out := Failures(h, u), Attempt(h.s, u, passwordOk, at).1;
      && (out.Locked? <==> exists j: nat :: j < |fs| && IsFifth(fs, j) && LockRuns(fs[j], at))
      && (out.Locked? ==> exists j: nat :: j < |fs| && IsFifth(fs, j) && out == Locked(Remaining(fs[j], at)))
      && (!out.Locked? ==>
            if passwordOk then out == Success
            else out == Failed(InWindow(fs + [at]), if InWindow(fs + [at]) == 5 then 900 else 0))
  {
    var h := Run(Start(true), es);
    RedisRun(Start(true), es);
    ExactRun(Start(true), es, u);
    var fs := Failures(h, u);
    LockedExactly(h.s, fs, u, h.now, at);
    AttemptsExact(h.s, fs, u, at);
    RedisWindowBound(es, u, passwordOk, at);
    if LastFifth(fs).Some? {
      LastFifthIsFifth(fs);
    }
    if j: nat :| j < |fs| && IsFifth(fs, j) && LockRuns(fs[j], at) {
      LastFifthIsLast(fs, j);
    }
    hide Run, Opening, LastFifth, Record;
  }

  // ---------- with Redis: any five minutes ----------

  // Failed checks of u with a time in [a, a + 300).
  function FailuresIn(h: History, es: seq<Event>, u: UserId, a: Time): nat
    decreases |es|
  {
    if es == [] then 0
    else
      (if FailureOf(h, es[0], u, a) then 1 else 0) + FailuresIn(Step(h, es[0]), es[1..], u, a)
  }

  // Successes and unlocks of u with a time in [a, a + 300).
  function ClearsIn(h: History, es: seq<Event>, u: UserId, a: Time): nat
    decreases |es|
  {
    if es == [] then 0
    else
      (if ClearOf(h, es[0], u, a) then 1 else 0) + ClearsIn(Step(h, es[0]), es[1..], u, a)
  }

  // How many more failed checks the rest of the interval can admit, seen from time now.
  function Budget(s: State, u: UserId, now: Time, a: Time): int {
    if now >= a + WINDOW then 0
    else if now < a then 8
    else if u in s.redisLocks && s.redisLocks[u] >= a + WINDOW + 1.0 then 0
    else if LiveCounter(s, u, now) then
      (if s.redisFailures[u].expires >= a + WINDOW then 5 else 9) - s.redisFailures[u].count
    else 5
  }

  lemma BudgetShrinks(s: State, u: UserId, now: Time, later: Time, a: Time)
    requires RedisUserInv(s, u) && now <= later
    ensures 0 <= Budget(s, u, later, a) <= Budget(s, u, now, a)
  {
  }

  lemma BudgetPaysForFailure(s: State, u: UserId, now: Time, a: Time)
    requires s.useRedis && RedisUserInv(s, u) && Attempt(s, u, false, now).1.Failed?
    ensures Budget(Attempt(s, u, false, now).0, u, now, a) + (if a <= now < a + WINDOW then 1 else 0)
      <= Budget(s, u, now, a)
  {
  }

  predicate FailureOf(h: History, e: Event, u: UserId, a: Time) {
    e.Login? && e.u == u && a <= e.at < a + WINDOW && Attempt(h.s, u, e.passwordOk, e.at).1.Failed?
  }

  predicate ClearOf(h: History, e: Event, u: UserId, a: Time) {
    && e.u == u && a <= e.at < a + WINDOW
    && (e.Login? ==> Attempt(h.s, u, e.passwordOk, e.at).1.Success?)
  }

  // A success or unlock in the interval opens room for one more window of five.
  lemma StepWithinBudget(h: History, e: Event, u: UserId, a: Time)
    requires RedisInv(h) && h.now <= e.at
    ensures Budget(Step(h, e).s, u, e.at, a) + (if FailureOf(h, e, u, a) then 1 else 0)
      <= Budget(h.s, u, h.now, a) + (if ClearOf(h, e, u, a) then 5 else 0)
  {
    assert RedisUserInv(h.s, u);
    BudgetShrinks(h.s, u, h.now, e.at, a);
    if e.u == u && e.Login? && Attempt(h.s, u, e.passwordOk, e.at).1.Failed? {
      BudgetPaysForFailure(h.s, u, e.at, a);
    }
  }

  lemma {:induction false} FailuresWithinBudget(h: History, es: seq<Event>, u: UserId, a: Time)
    requires RedisInv(h) && Monotone(h.now, es)
    ensures FailuresIn(h, es, u, a) <= Budget(h.s, u, h.now, a) + 5 * ClearsIn(h, es, u, a)
    decreases |es|
  {
    if es == [] {
      assert RedisUserInv(h.s, u);
      BudgetShrinks(h.s, u, h.now, h.now, a);
    } else {
      hide Budget;
      RedisStep(h, es[0]);
      StepWithinBudget(h, es[0], u, a);
      FailuresWithinBudget(Step(h, es[0]), es[1..], u, a);
    }
  }

  // The window is fixed, not sliding, so two windows can meet: on every trace, any half-open
  // interval of 300 s admits at most eight failed checks of a user, and five more for each success
  // or unlock of that user inside the interval.
  lemma RedisFiveMinuteBound(es: seq<Event>, u: UserId, a: Time)
    requires Monotone(0.0, es)
    ensures FailuresIn(Start(true), es, u, a) <= 8 + 5 * ClearsIn(Start(true), es, u, a)
  {
    FailuresWithinBudget(Start(true), es, u, a);
  }

  // A number of failed attempts by u at one instant.
  function Tries(u: UserId, n: nat, at: Time): seq<Event> {
    if n == 0 then [] else [Login(u, false, at)] + Tries(u, n - 1, at)
  }

  // The counter of u stands at n in a window that ends at `end`; below five no lock holds at time `at`.
  predicate Counting(s: State, u: UserId, n: nat, end: Time, at: Time) {
    && s.useRedis && n >= 1 && u in s.redisFailures && s.redisFailures[u] == Counter(n, end)
    && (n < LOCK_THRESHOLD ==> CheckLock(s, u, at).None?)
  }

  // A lock that does not hold now does not hold later.
  lemma UnlockedStays(s: State, u: UserId, now: Time, later: Time)
    requires CheckLock(s, u, now).None? && now <= later
    ensures CheckLock(s, u, later).None?
  {
  }

  lemma TryCounts(h: History, u: UserId, n: nat, end: Time, at: Time)
    requires Counting(h.s, u, n, end, at) && n < LOCK_THRESHOLD && at < end
    ensures Counting(Step(h, Login(u, false, at)).s, u, n + 1, end, at)
    ensures forall a: Time :: FailureOf(h, Login(u, false, at), u, a) <==> a <= at < a + WINDOW
    ensures forall a: Time :: !ClearOf(h, Login(u, false, at), u, a)
  {
  }

  lemma TryOpens(h: History, u: UserId, at: Time)
    requires h.s.useRedis && !LiveCounter(h.s, u, at) && CheckLock(h.s, u, at).None?
    ensures Counting(Step(h, Login(u, false, at)).s, u, 1, at + WINDOW, at)
    ensures forall a: Time :: FailureOf(h, Login(u, false, at), u, a) <==> a <= at < a + WINDOW
    ensures forall a: Time :: !ClearOf(h, Login(u, false, at), u, a)
  {
  }

  lemma FirstTry(h: History, u: UserId, n: nat, at: Time, rest: seq<Event>, a: Time)
    requires n > 0
    ensures var e := Login(u, false, at);
      && Run(h, Tries(u, n, at)) == Run(Step(h, e), Tries(u, n - 1, at))
      && FailuresIn(h, Tries(u, n, at) + rest, u, a) ==
         (if FailureOf(h, e, u, a) then 1 else 0) + FailuresIn(Step(h, e), Tries(u, n - 1, at) + rest, u, a)
      && ClearsIn(h, Tries(u, n, at) + rest, u, a) ==
         (if ClearOf(h, e, u, a) then 1 else 0) + ClearsIn(Step(h, e), Tries(u, n - 1, at) + rest, u, a)
  {
    hide Step, FailureOf, ClearOf;
    assert Tries(u, n, at)[1..] == Tries(u, n - 1, at);
    assert (Tries(u, n, at) + rest)[1..] == Tries(u, n - 1, at) + rest;
  }

  lemma NoTries(h: History, u: UserId, at: Time, rest: seq<Event>)
    ensures Tries(u, 0, at) + rest == rest && Run(h, Tries(u, 0, at)) == h
  {
  }

  // Up to the fifth of a window, each attempt is counted and its password checked.
  lemma {:induction false} TriesCount(h: History, u: UserId, c: nat, end: Time, n: nat, at: Time, rest: seq<Event>,
                                      a: Time)
    requires Counting(h.s, u, c, end, at) && c + n <= LOCK_THRESHOLD && at < end
    ensures FailuresIn(h, Tries(u, n, at) + rest, u, a) ==
            (if a <= at < a + WINDOW then n else 0) + FailuresIn(Run(h, Tries(u, n, at)), rest, u, a)
    ensures ClearsIn(h, Tries(u, n, at) + rest, u, a) == ClearsIn(Run(h, Tries(u, n, at)), rest, u, a)
    ensures Counting(Run(h, Tries(u, n, at)).s, u, c + n, end, at)
    decreases n
  {
    hide FailuresIn, ClearsIn, FailureOf, ClearOf, Run, Tries, Step, Attempt, Counting;
    if n == 0 {
      NoTries(h, u, at, rest);
    } else {
      TryCounts(h, u, c, end, at);
      FirstTry(h, u, n, at, rest, a);
      TriesCount(Step(h, Login(u, false, at)), u, c + 1, end, n - 1, at, rest, a);
    }
  }

  lemma {:induction false} TriesShape(u: UserId, n: nat, at: Time, rest: seq<Event>)
    requires Monotone(at, rest)
    ensures Monotone(at, Tries(u, n, at) + rest)
    decreases n
  {
    if n == 0 {
      assert Tries(u, n, at) + rest == rest;
    } else {
      TriesShape(u, n - 1, at, rest);
      assert (Tries(u, n, at) + rest)[1..] == Tries(u, n - 1, at) + rest;
    }
  }

  // A new window and further attempts in it.
  lemma WindowOfTries(h: History, u: UserId, n: nat, at: Time, rest: seq<Event>, a: Time)
    requires h.s.useRedis && !LiveCounter(h.s, u, at) && CheckLock(h.s, u, at).None?
    requires 1 <= n <= LOCK_THRESHOLD
    ensures FailuresIn(h, Tries(u, n, at) + rest, u, a) ==
            (if a <= at < a + WINDOW then n else 0) + FailuresIn(Run(h, Tries(u, n, at)), rest, u, a)
    ensures ClearsIn(h, Tries(u, n, at) + rest, u, a) == ClearsIn(Run(h, Tries(u, n, at)), rest, u, a)
    ensures Counting(Run(h, Tries(u, n, at)).s, u, n, at + WINDOW, at)
  {
    TryOpens(h, u, at);
    FirstTry(h, u, n, at, rest, a);
    hide FailuresIn, ClearsIn, FailureOf, ClearOf, Run, Tries, Step, Attempt, Counting;
    TriesCount(Step(h, Login(u, false, at)), u, 1, at + WINDOW, n - 1, at, rest, a);
  }

  // The rest of an open window and then a whole new one.
  lemma TwoWindows(h: History, u: UserId, c: nat, end: Time, at: Time, rest: seq<Event>, a: Time)
    requires Counting(h.s, u, c, end, at) && c < LOCK_THRESHOLD && a <= at < end < a + WINDOW
    ensures var es := Tries(u, LOCK_THRESHOLD - 1 - c, at) + (Tries(u, LOCK_THRESHOLD, end) + rest);
      var h' := Run(Run(h, Tries(u, LOCK_THRESHOLD - 1 - c, at)), Tries(u, LOCK_THRESHOLD, end));
      && h'.s.useRedis
      && FailuresIn(h, es, u, a) == 9 - c + FailuresIn(h', rest, u, a)
      && ClearsIn(h, es, u, a) == ClearsIn(h', rest, u, a)
    ensures Monotone(end, rest) ==>
      Monotone(at, Tries(u, LOCK_THRESHOLD - 1 - c, at) + (Tries(u, LOCK_THRESHOLD, end) + rest))
  {
    var second := Tries(u, LOCK_THRESHOLD, end) + rest;
    var h1 := Run(h, Tries(u, LOCK_THRESHOLD - 1 - c, at));
    TriesCount(h, u, c, end, LOCK_THRESHOLD - 1 - c, at, second, a);
    UnlockedStays(h1.s, u, at, end);
    WindowOfTries(h1, u, LOCK_THRESHOLD, end, rest, a);
    if Monotone(end, rest) {
      TriesShape(u, LOCK_THRESHOLD, end, rest);
      MonotoneEarlier(at, end, second);
      TriesShape(u, LOCK_THRESHOLD - 1 - c, at, second);
    }
    hide FailuresIn, ClearsIn, Run, Tries, Monotone;
  }

  // An unlock and five more failures, over and over at one instant.
  function Rounds(u: UserId, c: nat, at: Time): seq<Event> {
    if c == 0 then [] else [Unlock(u, at)] + (Tries(u, 5, at) + Rounds(u, c - 1, at))
  }

  lemma {:induction false} RoundsShape(u: UserId, c: nat, at: Time)
    ensures Monotone(at, Rounds(u, c, at))
  {
    if c == 0 {
    } else {
      RoundsShape(u, c - 1, at);
      TriesShape(u, 5, at, Rounds(u, c - 1, at));
      assert Rounds(u, c, at)[1..] == Tries(u, 5, at) + Rounds(u, c - 1, at);
    }
  }

  lemma {:induction false} RoundsCount(h: History, u: UserId, c: nat, at: Time, a: Time)
    requires h.s.useRedis && a <= at < a + WINDOW
    ensures FailuresIn(h, Rounds(u, c, at), u, a) == 5 * c && ClearsIn(h, Rounds(u, c, at), u, a) == c
    decreases c
  {
    if c == 0 {
    } else {
      var e, rest := Unlock(u, at), Tries(u, 5, at) + Rounds(u, c - 1, at);
      assert Rounds(u, c, at)[1..] == rest;
      var h1 := Step(h, e);
      assert ClearOf(h, e, u, a) && !FailureOf(h, e, u, a);
      assert FailuresIn(h, Rounds(u, c, at), u, a) == FailuresIn(h1, rest, u, a);
      assert ClearsIn(h, Rounds(u, c, at), u, a) == 1 + ClearsIn(h1, rest, u, a);
      hide FailuresIn, ClearsIn, Run, Rounds;
      WindowOfTries(h1, u, 5, at, Rounds(u, c - 1, at), a);
      RoundsCount(Run(h1, Tries(u, 5, at)), u, c - 1, at, a);
    }
  }

  // The bound is reached for every user and number of unlocks: one failure opens a window, three
  // more come at its end, five fill the next, and each unlock lets in five more.
  lemma FiveMinuteBoundIsReached(u: UserId, c: nat)
    ensures var es := Tries(u, 1, 0.0) + (Tries(u, 3, 299.0) + (Tries(u, 5, 300.0) + Rounds(u, c, 300.0)));
      && Monotone(0.0, es)
      && ClearsIn(Start(true), es, u, 299.0) == c
      && FailuresIn(Start(true), es, u, 299.0) == 8 + 5 * c
  {
    var last := Rounds(u, c, 300.0);
    var second := Tries(u, 3, 299.0) + (Tries(u, 5, 300.0) + last);
    RoundsShape(u, c, 300.0);
    var h1 := Run(Start(true), Tries(u, 1, 0.0));
    WindowOfTries(Start(true), u, 1, 0.0, second, 299.0);
    UnlockedStays(h1.s, u, 0.0, 299.0);
    TwoWindows(h1, u, 1, 300.0, 299.0, last, 299.0);
    hide Attempt, Step, Tries, Rounds, Run, FailuresIn, ClearsIn;
    MonotoneEarlier(0.0, 299.0, second);
    TriesShape(u, 1, 0.0, second);
    RoundsCount(Run(Run(h1, Tries(u, 3, 299.0)), Tries(u, 5, 300.0)), u, c, 300.0, 299.0);
  }

  // ---------- with Redis: when the window slides after all ----------

  // A counter below five was opened while no lock held.
  ghost predicate OpenedUnlocked(s: State, u: UserId) {
    u in s.redisFailures && s.redisFailures[u].count < LOCK_THRESHOLD ==>
      CheckLock(s, u, s.redisFailures[u].expires - WINDOW).None?
  }

  lemma OpenedByOthers(h: History, e: Event, u: UserId)
    requires e.u != u && OpenedUnlocked(h.s, u)
    ensures OpenedUnlocked(Step(h, e).s, u)
  {
    OthersSame(h, e, u);
    hide Step;
  }

  lemma OpenedByFailure(s: State, u: UserId, at: Time)
    requires s.useRedis && OpenedUnlocked(s, u) && CheckLock(s, u, at).None?
    ensures OpenedUnlocked(Record(AfterCheck(s, u, at), u, at), u)
  {
  }

  lemma OpenedUnlockedStep(h: History, e: Event, u: UserId)
    requires RedisInv(h) && h.now <= e.at && OpenedUnlocked(h.s, u)
    ensures OpenedUnlocked(Step(h, e).s, u)
  {
    if e.u != u {
      OpenedByOthers(h, e, u);
    } else if e.Login? && CheckLock(h.s, u, e.at).None? {
      if e.passwordOk {
        assert u !in Step(h, e).s.redisFailures;
      } else {
        OpenedByFailure(h.s, u, e.at);
      }
      hide OpenedUnlocked, Record, CheckLock, AfterCheck;
    }
  }

  lemma {:induction false} OpenedUnlockedRun(h: History, es: seq<Event>, u: UserId)
    requires RedisInv(h) && Monotone(h.now, es) && OpenedUnlocked(h.s, u)
    ensures OpenedUnlocked(Run(h, es).s, u)
    decreases |es|
  {
    if es == [] {
    } else {
      RedisStep(h, es[0]);
      OpenedUnlockedStep(h, es[0], u);
      OpenedUnlockedRun(Step(h, es[0]), es[1..], u);
    }
  }

  // The documented five failures in any five minutes, for the interval that starts at a: whatever
  // comes, five failed checks and five more for each success or unlock inside.
  ghost predicate FiveFrom(h: History, u: UserId, a: Time) {
    forall es: seq<Event> | Monotone(a, es) :: FailuresIn(h, es, u, a) <= 5 + 5 * ClearsIn(h, es, u, a)
  }

  // A counter that has room for two failures or more and closes inside the interval.
  predicate ClosesInside(s: State, u: UserId, a: Time) {
    LiveCounter(s, u, a) && s.redisFailures[u].count <= 3 && s.redisFailures[u].expires < a + WINDOW
  }

  lemma {:induction false} LaterStart(h: History, a: Time, es: seq<Event>, u: UserId)
    requires h.now <= a
    ensures FailuresIn(h, es, u, a) == FailuresIn(h.(now := a), es, u, a)
    ensures ClearsIn(h, es, u, a) == ClearsIn(h.(now := a), es, u, a)
  {
    if es == [] {
    } else {
      assert Step(h, es[0]) == Step(h.(now := a), es[0]);
    }
  }

  // From any state that a trace reaches, the interval that starts at a keeps the documented bound
  // exactly when no such counter stands in Redis then.
  lemma FiveFromExactly(before: seq<Event>, u: UserId, a: Time)
    requires Monotone(0.0, before) && Run(Start(true), before).now <= a
    ensures var h := Run(Start(true), before);
      FiveFrom(h, u, a) <==> !ClosesInside(h.s, u, a)
  {
    var h := Run(Start(true), before);
    RedisRun(Start(true), before);
    OpenedUnlockedRun(Start(true), before, u);
    assert RedisUserInv(h.s, u);
    hide Run;
    if ClosesInside(h.s, u, a) {
      var c, end := h.s.redisFailures[u].count, h.s.redisFailures[u].expires;
      UnlockedStays(h.s, u, end - WINDOW, a);
      TwoWindows(h, u, c, end, a, [], a);
      var es := Tries(u, LOCK_THRESHOLD - 1 - c, a) + (Tries(u, LOCK_THRESHOLD, end) + []);
      assert Monotone(a, es) && FailuresIn(h, es, u, a) == 9 - c && ClearsIn(h, es, u, a) == 0;
    } else {
      forall es: seq<Event> | Monotone(a, es)
        ensures FailuresIn(h, es, u, a) <= 5 + 5 * ClearsIn(h, es, u, a)
      {
        LaterStart(h, a, es, u);
        FailuresWithinBudget(h.(now := a), es, u, a);
        assert Budget(h.s, u, a, a) <= 5;
      }
    }
  }

  lemma MonotoneEarlier(now: Time, later: Time, es: seq<Event>)
    requires now <= later && Monotone(later, es)
    ensures Monotone(now, es)
  {
  }
}
