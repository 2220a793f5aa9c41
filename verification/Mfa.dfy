// Second-factor challenges (authenticator.py) and single-use backup codes (mfa_provider.py).
// Completions are serialised; each works on the profile that the cache gave it, which may be old.
module Mfa {
  import opened Prelude

  type UserId = nat
  type ChallengeId = nat

  // SHA-256 of a stripped backup code, taken as injective.
  type CodeHash = nat

  const MAX_ATTEMPTS := 3
  const CHALLENGE_TTL: Time := 300.0

  // ---------- backup codes ----------

  function RemoveFirst(codes: seq<CodeHash>, h: CodeHash): seq<CodeHash> {
    if codes == [] then []
    else if codes[0] == h then codes[1..]
    else [codes[0]] + RemoveFirst(codes[1..], h)
  }

  lemma {:induction false} RemoveFirstConserves(codes: seq<CodeHash>, h: CodeHash)
    requires h in codes
    ensures multiset(RemoveFirst(codes, h)) + multiset{h} == multiset(codes)
    ensures |RemoveFirst(codes, h)| == |codes| - 1
  {
    assert codes == [codes[0]] + codes[1..];
    if codes[0] == h {
    } else {
      RemoveFirstConserves(codes[1..], h);
    }
  }

  lemma {:induction false} RemoveFirstAt(codes: seq<CodeHash>, h: CodeHash, i: nat)
    requires i < |codes| && codes[i] == h && h !in codes[..i]
    ensures RemoveFirst(codes, h) == codes[..i] + codes[i + 1..]
  {
    if i == 0 {
    } else {
      assert codes[0] == codes[..i][0];
      assert codes[1..][..i - 1] == codes[1..i] && forall x <- codes[1..i] :: x in codes[..i];
      RemoveFirstAt(codes[1..], h, i - 1);
      assert codes[1..][i..] == codes[i + 1..] && [codes[0]] + codes[1..i] == codes[..i];
    }
  }

  method VerifyAndConsumeBackupCode(candidate: CodeHash, stored: seq<CodeHash>)
    returns (valid: bool, remaining: seq<CodeHash>)
    ensures valid <==> candidate in stored
    ensures valid ==> multiset(remaining) + multiset{candidate} == multiset(stored)
    ensures remaining == if valid then RemoveFirst(stored, candidate) else stored
  {
    remaining := stored;
    for i := 0 to |stored|
      invariant remaining == stored && candidate !in stored[..i]
    {
      if candidate == stored[i] {
        RemoveFirstAt(stored, candidate, i);
        RemoveFirstConserves(stored, candidate);
        remaining := remaining[..i] + remaining[i + 1..];
        return true, remaining;
      }
    }
    return false, remaining;
  }

  // ---------- challenges ----------

  // A stored challenge; keyExpires is the end of the Redis key and means nothing in memory.
  datatype Challenge = Challenge(user: UserId, expiresAt: Time, attempts: nat, keyExpires: Time)

  datatype Account = Account(hasSecret: bool, backupCodes: seq<CodeHash>)

  datatype State = State(useRedis: bool, challenges: map<ChallengeId, Challenge>, accounts: map<UserId, Account>)

  datatype Outcome =
    | UserNotFound
    | ChallengeDoesNotExist
    | ChallengeUserMismatch
    | ChallengeExpired
    | NotConfigured
    | InvalidCode
    | AttemptsExceeded
    | Success(byBackupCode: bool)

  // The outcomes in which a code was compared.
  predicate IsFailedCheck(out: Outcome) {
    out.InvalidCode? || out.AttemptsExceeded?
  }

  predicate IsCheck(out: Outcome) {
    IsFailedCheck(out) || out.Success?
  }

  predicate Stored(s: State, id: ChallengeId, now: Time) {
    id in s.challenges && (s.useRedis ==> now < s.challenges[id].keyExpires)
  }

  function Drop(s: State, id: ChallengeId): State {
    s.(challenges := s.challenges - {id})
  }

  // initiate_mfa_challenge with a new random id; `seen` is the profile that get_by_id returned.
  function Initiate(s: State, seen: Option<Account>, u: UserId, id: ChallengeId, now: Time): State {
    if seen.Some? && seen.value.hasSecret then
      s.(challenges := s.challenges[id := Challenge(u, now + CHALLENGE_TTL, 0, now + CHALLENGE_TTL)])
    else s
  }

  // update_user with the metadata of a profile; it changes no row when the user is gone.
  function WriteBack(accounts: map<UserId, Account>, u: UserId, account: Account): map<UserId, Account> {
    if u in accounts then accounts[u := account] else accounts
  }

  // complete_mfa_challenge; totpOk is the verdict of the TOTP library, h the hash of the same text
  // read as a backup code. The codes are checked in the profile seen, and its metadata is written back.
  function Complete(s: State, seen: Option<Account>, u: UserId, id: ChallengeId, totpOk: bool, h: CodeHash, now: Time)
    : (State, Outcome)
  {
    if seen.None? then (s, UserNotFound)
    else if !Stored(s, id, now) then (s, ChallengeDoesNotExist)
    else
      var c, account := s.challenges[id], seen.value;
      if c.user != u then (s, ChallengeUserMismatch)
      else if now > c.expiresAt then (Drop(s, id), ChallengeExpired)
      else if !account.hasSecret then (s, NotConfigured)
      else if totpOk then (Drop(s, id), Success(false))
      else if h in account.backupCodes then
        var left := account.(backupCodes := RemoveFirst(account.backupCodes, h));
        (Drop(s, id).(accounts := WriteBack(s.accounts, u, left)), Success(true))
      else if c.attempts + 1 >= MAX_ATTEMPTS then (Drop(s, id), AttemptsExceeded)
      else
        var c' := c.(attempts := c.attempts + 1, keyExpires := now + CHALLENGE_TTL);
        (s.(challenges := s.challenges[id := c']), InvalidCode)
  }

  class Authenticator {
    const useRedis: bool
    var challenges: map<ChallengeId, Challenge>
    var accounts: map<UserId, Account>

    constructor (useRedis: bool, accounts: map<UserId, Account>)
      ensures Contents() == State(useRedis, map[], accounts)
    {
      this.useRedis, this.accounts := useRedis, accounts;
      challenges := map[];
    }

    ghost function Contents(): State
      reads this
    {
      State(useRedis, challenges, accounts)
    }

    method InitiateMfaChallenge(seen: Option<Account>, u: UserId, id: ChallengeId, now: Time) returns (started: bool)
      modifies this
      ensures Contents() == Initiate(old(Contents()), seen, u, id, now)
      ensures started <==> seen.Some? && seen.value.hasSecret
    {
      if seen.None? || !seen.value.hasSecret {
        return false;
      }
      challenges := challenges[id := Challenge(u, now + CHALLENGE_TTL, 0, now + CHALLENGE_TTL)];
      return true;
    }

    method CompleteMfaChallenge(seen: Option<Account>, u: UserId, id: ChallengeId, totpOk: bool, h: CodeHash, now: Time)
      returns (out: Outcome)
      modifies this
      ensures (Contents(), out) == Complete(old(Contents()), seen, u, id, totpOk, h, now)
    {
      if seen.None? {
        return UserNotFound;
      }
      if id !in challenges || (useRedis && now >= challenges[id].keyExpires) {
        return ChallengeDoesNotExist;
      }
      var challenge, account := challenges[id], seen.value;
      if challenge.user != u {
        return ChallengeUserMismatch;
      }
      if now > challenge.expiresAt {
        challenges := challenges - {id};
        return ChallengeExpired;
      }
      if !account.hasSecret {
        return NotConfigured;
      }
      var isValid, byBackupCode := totpOk, false;
      if !isValid && account.backupCodes != [] {
        var remaining;
        isValid, remaining := VerifyAndConsumeBackupCode(h, account.backupCodes);
        if isValid {
          byBackupCode := true;
          if u in accounts {
            accounts := accounts[u := account.(backupCodes := remaining)];
          }
        }
      }
      if !isValid {
        challenge := challenge.(attempts := challenge.attempts + 1);
        if challenge.attempts >= MAX_ATTEMPTS {
          challenges := challenges - {id};
          return AttemptsExceeded;
        }
        challenges := challenges[id := challenge.(keyExpires := now + CHALLENGE_TTL)];
        return InvalidCode;
      }
      challenges := challenges - {id};
      return Success(byBackupCode);
    }
  }

  // ---------- runs ----------

  datatype Event =
    | Begin(seen: Option<Account>, user: UserId, challenge: ChallengeId, at: Time)
    | Submit(seen: Option<Account>, user: UserId, challenge: ChallengeId, totpOk: bool, hash: CodeHash, at: Time)
    | Enrol(user: UserId, codes: seq<CodeHash>, at: Time)

  // A code comparison that took place, and the user who asked for it.
  datatype Check = Check(challenge: ChallengeId, user: UserId, out: Outcome, at: Time)

  // For whom and when a challenge was asked for, and whether that user had a second factor to use.
  datatype Start = Start(user: UserId, at: Time, granted: bool)

  // The state with its history: the comparisons made, the start of each challenge, and for each
  // user the codes enrolled last and those consumed since.
  datatype History = History(
    s: State,
    started: map<ChallengeId, Start>,
    checks: seq<Check>,
    enrolled: map<UserId, seq<CodeHash>>,
    consumed: map<UserId, seq<CodeHash>>,
    now: Time)

  predicate Enabled(h: History, e: Event) {
    h.now <= e.at && (e.Begin? ==> e.challenge !in h.started)
  }

  function Step(h: History, e: Event): History {
    match e
    case Begin(seen, u, id, at) =>
      h.(s := Initiate(h.s, seen, u, id, at), now := at,
         started := h.started[id := Start(u, at, seen.Some? && seen.value.hasSecret)])
    case Submit(seen, u, id, totpOk, code, at) =>
      var (s', out) := Complete(h.s, seen, u, id, totpOk, code, at);
      h.(s := s', now := at,
         checks := if IsCheck(out) then h.checks + [Check(id, u, out, at)] else h.checks,
         consumed := if out == Success(true) then h.consumed[u := ConsumedBy(h, u) + [code]] else h.consumed)
    case Enrol(u, codes, at) =>
      h.(s := h.s.(accounts := h.s.accounts[u := Account(true, codes)]), now := at,
         enrolled := h.enrolled[u := codes], consumed := h.consumed[u := []])
  }

  function ConsumedBy(h: History, u: UserId): seq<CodeHash> {
    if u in h.consumed then h.consumed[u] else []
  }

  predicate Possible(h: History, es: seq<Event>)
    decreases |es|
  {
    es == [] || (Enabled(h, es[0]) && Possible(Step(h, es[0]), es[1..]))
  }

  function Run(h: History, es: seq<Event>): History
    decreases |es|
  {
    if es == [] then h else Run(Step(h, es[0]), es[1..])
  }

  predicate Initial(h: History) {
    h.s.challenges == map[] && h.started == map[] && h.checks == [] && h.enrolled == map[] && h.consumed == map[] &&
    forall u <- h.s.accounts :: h.s.accounts[u].backupCodes == []
  }

  // Failed comparisons for a challenge.
  function FailedChecks(checks: seq<Check>, id: ChallengeId): nat {
    if checks == [] then 0
    else FailedChecks(checks[..|checks| - 1], id) +
         (var last := checks[|checks| - 1]; if last.challenge == id && IsFailedCheck(last.out) then 1 else 0)
  }

  predicate Succeeded(checks: seq<Check>, id: ChallengeId) {
    exists i :: 0 <= i < |checks| && checks[i].challenge == id && checks[i].out.Success?
  }

  ghost predicate CountsOk(h: History) {
    && (forall id <- h.s.challenges ::
          && id in h.started && h.started[id].granted && h.s.challenges[id].user == h.started[id].user
          && h.s.challenges[id].expiresAt == h.started[id].at + CHALLENGE_TTL <= h.s.challenges[id].keyExpires
          && h.s.challenges[id].attempts == FailedChecks(h.checks, id) < MAX_ATTEMPTS
          && !Succeeded(h.checks, id))
    && (forall id :: FailedChecks(h.checks, id) <= MAX_ATTEMPTS)
    && (forall id <- h.started :: h.started[id].at <= h.now)
  }

  // A challenge that was granted is there until its last check or its end.
  ghost predicate GrantedStay(h: History) {
    forall id <- h.started ::
      (&& h.started[id].granted && h.now <= h.started[id].at + CHALLENGE_TTL
       && FailedChecks(h.checks, id) < MAX_ATTEMPTS && !Succeeded(h.checks, id)) ==> id in h.s.challenges
  }

  ghost predicate ChecksInTime(h: History) {
    forall c <- h.checks :: c.challenge in h.started && c.user == h.started[c.challenge].user
      && c.at <= h.started[c.challenge].at + CHALLENGE_TTL
  }

  ghost predicate SuccessIsLast(checks: seq<Check>) {
    forall i, j | 0 <= i < j < |checks| && checks[i].challenge == checks[j].challenge :: !checks[i].out.Success?
  }

  ghost predicate ChallengesOk(h: History) {
    CountsOk(h) && GrantedStay(h) && ChecksInTime(h) && SuccessIsLast(h.checks)
  }

  ghost predicate UserConserved(h: History, u: UserId) {
    if u in h.enrolled then
      u in h.s.accounts && multiset(h.s.accounts[u].backupCodes) + multiset(ConsumedBy(h, u)) == multiset(h.enrolled[u])
    else ConsumedBy(h, u) == [] && (u in h.s.accounts ==> h.s.accounts[u].backupCodes == [])
  }

  ghost predicate CodesConserved(h: History) {
    forall u :: UserConserved(h, u)
  }

  lemma {:induction false} FailedChecksOfUnseen(checks: seq<Check>, id: ChallengeId)
    requires forall c <- checks :: c.challenge != id
    ensures FailedChecks(checks, id) == 0
  {
    if checks == [] {
    } else {
      FailedChecksOfUnseen(checks[..|checks| - 1], id);
    }
  }

  lemma OneMoreCheck(checks: seq<Check>, c: Check, id: ChallengeId)
    ensures FailedChecks(checks + [c], id) ==
            FailedChecks(checks, id) + (if id == c.challenge && IsFailedCheck(c.out) then 1 else 0)
    ensures Succeeded(checks + [c], id) <==> Succeeded(checks, id) || (id == c.challenge && c.out.Success?)
  {
  }

  lemma CheckKeepsCounts(h: History, e: Event)
    requires CountsOk(h) && Enabled(h, e) && e.Submit?
    ensures CountsOk(Step(h, e))
  {
    hide RemoveFirst, FailedChecks, Succeeded;
    var (s', out) := Complete(h.s, e.seen, e.user, e.challenge, e.totpOk, e.hash, e.at);
    var c := Check(e.challenge, e.user, out, e.at);
    forall id {
      OneMoreCheck(h.checks, c, id);
    }
    assert Step(h, e).checks == if IsCheck(out) then h.checks + [c] else h.checks;
  }

  lemma CheckKeepsGranted(h: History, e: Event)
    requires CountsOk(h) && GrantedStay(h) && Enabled(h, e) && e.Submit?
    ensures GrantedStay(Step(h, e))
  {
    hide RemoveFirst, FailedChecks, Succeeded;
    var (s', out) := Complete(h.s, e.seen, e.user, e.challenge, e.totpOk, e.hash, e.at);
    var c := Check(e.challenge, e.user, out, e.at);
    forall id {
      OneMoreCheck(h.checks, c, id);
    }
    assert Step(h, e).checks == if IsCheck(out) then h.checks + [c] else h.checks;
  }

  lemma CheckKeepsOrder(h: History, e: Event)
    requires ChallengesOk(h) && Enabled(h, e) && e.Submit?
    ensures ChecksInTime(Step(h, e)) && SuccessIsLast(Step(h, e).checks)
  {
  }

  lemma StepKeepsChallenges(h: History, e: Event)
    requires ChallengesOk(h) && Enabled(h, e)
    ensures ChallengesOk(Step(h, e))
  {
    if e.Submit? {
      CheckKeepsCounts(h, e);
      CheckKeepsGranted(h, e);
      CheckKeepsOrder(h, e);
      hide CountsOk, GrantedStay, ChecksInTime, SuccessIsLast;
    } else if e.Begin? {
      FailedChecksOfUnseen(h.checks, e.challenge);
    }
  }

  // The outcome of a submission.
  function OutcomeOf(h: History, e: Event): Outcome
    requires e.Submit?
  {
    Complete(h.s, e.seen, e.user, e.challenge, e.totpOk, e.hash, e.at).1
  }

  // A completion that uses up a backup code saw the codes of the row.
  predicate SawCodes(h: History, e: Event) {
    e.Submit? && OutcomeOf(h, e) == Success(true) ==>
      && e.seen.Some? && e.user in h.s.accounts
      && multiset(e.seen.value.backupCodes) == multiset(h.s.accounts[e.user].backupCodes)
  }

  // The codes left and the codes used make up the codes enrolled exactly when the codes that were
  // checked and the codes used before do.
  lemma ConsumptionBalances(codes: seq<CodeHash>, used: seq<CodeHash>, enrolled: seq<CodeHash>, h: CodeHash)
    requires h in codes
    ensures multiset(RemoveFirst(codes, h)) + multiset(used + [h]) == multiset(enrolled)
       <==> multiset(codes) + multiset(used) == multiset(enrolled)
  {
    RemoveFirstConserves(codes, h);
    hide RemoveFirst;
    assert multiset(used + [h]) == multiset(used) + multiset{h};
  }

  // A completion touches accounts only when it uses up a backup code.
  lemma CompleteAccounts(h: History, e: Event)
    requires e.Submit?
    ensures if OutcomeOf(h, e) == Success(true) then
        && e.seen.Some? && e.hash in e.seen.value.backupCodes
        && var left := e.seen.value.(backupCodes := RemoveFirst(e.seen.value.backupCodes, e.hash));
           Step(h, e).s.accounts == WriteBack(h.s.accounts, e.user, left)
      else Step(h, e).s.accounts == h.s.accounts
  {
  }

  // The user's entry of each table decides its balance.
  lemma SameEntries(h: History, h': History, u: UserId)
    requires UserConserved(h, u) && ConsumedBy(h', u) == ConsumedBy(h, u)
    requires u in h.s.accounts <==> u in h'.s.accounts
    requires u in h.s.accounts ==> h'.s.accounts[u].backupCodes == h.s.accounts[u].backupCodes
    requires u in h.enrolled <==> u in h'.enrolled
    requires u in h.enrolled ==> h'.enrolled[u] == h.enrolled[u]
    ensures UserConserved(h', u)
  {
  }

  lemma SameRest(a: multiset<CodeHash>, b: multiset<CodeHash>, c: multiset<CodeHash>)
    ensures a + c == b + c <==> a == b
  {
    if a + c == b + c {
      forall x
        ensures a[x] == b[x]
      {
        assert (a + c)[x] == (b + c)[x];
      }
    }
  }

  lemma SubmitConserves(h: History, e: Event, u: UserId)
    requires UserConserved(h, u) && e.Submit?
    ensures UserConserved(Step(h, e), u) <==> (e.user == u ==> SawCodes(h, e))
  {
    CompleteAccounts(h, e);
    if e.user == u && OutcomeOf(h, e) == Success(true) {
      var codes := e.seen.value.backupCodes;
      assert ConsumedBy(Step(h, e), u) == ConsumedBy(h, u) + [e.hash];
      if u in h.enrolled {
        ConsumptionBalances(codes, ConsumedBy(h, u), h.enrolled[u], e.hash);
        SameRest(multiset(codes), multiset(h.s.accounts[u].backupCodes), multiset(ConsumedBy(h, u)));
      } else {
        assert e.hash in multiset(codes);
      }
    } else {
      SameEntries(h, Step(h, e), u);
    }
    hide OutcomeOf, Complete, RemoveFirst;
  }

  // One step keeps the balance of every user exactly when a completion that uses up a backup code
  // saw the codes of the row.
  lemma ConservedStepExactly(h: History, e: Event)
    requires CodesConserved(h)
    ensures CodesConserved(Step(h, e)) <==> SawCodes(h, e)
  {
    forall u
      ensures UserConserved(Step(h, e), u) <==> (e.Submit? && e.user == u ==> SawCodes(h, e))
    {
      assert UserConserved(h, u);
      if e.Submit? {
        SubmitConserves(h, e, u);
      } else if e.user != u || e.Begin? {
        SameEntries(h, Step(h, e), u);
      }
    }
    assert !e.Submit? ==> SawCodes(h, e);
    hide SawCodes, Step, UserConserved;
    if e.Submit? {
      assert UserConserved(Step(h, e), e.user) <==> SawCodes(h, e);
    }
  }

  lemma {:induction false} RunKeepsChallenges(h: History, es: seq<Event>)
    requires ChallengesOk(h) && Possible(h, es)
    ensures ChallengesOk(Run(h, es))
    decreases |es|
  {
    if es == [] {
    } else {
      StepKeepsChallenges(h, es[0]);
      RunKeepsChallenges(Step(h, es[0]), es[1..]);
    }
  }

  // On every run, whatever profiles the completions see, a challenge admits at most three failed
  // comparisons, all by the user it was begun for, none after it expires, and a success is its last one.
  lemma ChallengeBounds(h0: History, es: seq<Event>, id: ChallengeId)
    requires Initial(h0) && Possible(h0, es)
    ensures var h := Run(h0, es);
      && FailedChecks(h.checks, id) <= 3
      && (forall c <- h.checks ::
            c.challenge in h.started && c.user == h.started[c.challenge].user && c.at <= h.started[c.challenge].at + 300.0)
      && SuccessIsLast(h.checks)
  {
    RunKeepsChallenges(h0, es);
  }

  // A completion by anyone else than the user a challenge was begun for is no comparison, and changes
  // no challenge and no account.
  lemma OthersChangeNothing(h0: History, es: seq<Event>, e: Event)
    requires Initial(h0) && Possible(h0, es) && e.Submit? && Enabled(Run(h0, es), e)
    requires var h := Run(h0, es); e.challenge in h.started ==> h.started[e.challenge].user != e.user
    ensures Step(Run(h0, es), e).s == Run(h0, es).s && !IsCheck(OutcomeOf(Run(h0, es), e))
  {
    RunKeepsChallenges(h0, es);
  }

  // A granted challenge still open for this user before time `at`.
  ghost predicate OpenFor(h: History, u: UserId, id: ChallengeId, at: Time) {
    && id in h.started && h.started[id].granted && h.started[id].user == u && at < h.started[id].at + 300.0
    && FailedChecks(h.checks, id) < 3 && !Succeeded(h.checks, id)
  }

  // What a completion answers, read off the history: the code is compared exactly while the challenge
  // is open for that user and the profile seen has a second factor, and succeeds exactly by a right
  // one-time code or a backup code among those seen. (At the very end of a challenge the Redis key may
  // already be gone.)
  lemma AnswersExactly(h0: History, es: seq<Event>, e: Event)
    requires Initial(h0) && Possible(h0, es) && e.Submit? && Enabled(Run(h0, es), e)
    requires var h := Run(h0, es); e.challenge in h.started ==> e.at != h.started[e.challenge].at + 300.0
    ensures var h := Run(h0, es);
      var out := OutcomeOf(h, e);
      && (IsCheck(out) <==> OpenFor(h, e.user, e.challenge, e.at) && e.seen.Some? && e.seen.value.hasSecret)
      && (IsCheck(out) ==>
            out == if e.totpOk then Success(false)
              else if e.hash in e.seen.value.backupCodes then Success(true)
              else if FailedChecks(h.checks, e.challenge) == 2 then AttemptsExceeded
              else InvalidCode)
  {
    RunKeepsChallenges(h0, es);
    hide Run, FailedChecks, Succeeded, RemoveFirst;
  }

  ghost predicate AlwaysConserved(h: History, es: seq<Event>)
    decreases |es|
  {
    CodesConserved(h) && (es == [] || AlwaysConserved(Step(h, es[0]), es[1..]))
  }

  predicate AllSawCodes(h: History, es: seq<Event>)
    decreases |es|
  {
    es == [] || (SawCodes(h, es[0]) && AllSawCodes(Step(h, es[0]), es[1..]))
  }

  // The codes of every user balance throughout a run exactly when each completion that uses up a
  // backup code saw the codes of the row.
  lemma {:induction false} ConservedExactly(h: History, es: seq<Event>)
    requires CodesConserved(h)
    ensures AlwaysConserved(h, es) <==> AllSawCodes(h, es)
    ensures AllSawCodes(h, es) ==> CodesConserved(Run(h, es))
    decreases |es|
  {
    hide CodesConserved, SawCodes, Step;
    if es == [] {
    } else {
      ConservedStepExactly(h, es[0]);
      if SawCodes(h, es[0]) {
        ConservedExactly(Step(h, es[0]), es[1..]);
      }
    }
  }

  // Between enrolments nothing is then lost or duplicated: the codes left and the codes consumed
  // make up the codes enrolled, so backup-code logins never exceed the codes issued.
  lemma BackupCodesConserved(h0: History, es: seq<Event>, u: UserId)
    requires Initial(h0) && AllSawCodes(h0, es) && u in Run(h0, es).enrolled
    ensures var h := Run(h0, es);
      && u in h.s.accounts
      && multiset(h.s.accounts[u].backupCodes) + multiset(ConsumedBy(h, u)) == multiset(h.enrolled[u])
      && |h.s.accounts[u].backupCodes| + |ConsumedBy(h, u)| == |h.enrolled[u]|
  {
    ConservedExactly(h0, es);
    var h := Run(h0, es);
    assert UserConserved(h, u);
    assert |multiset(h.s.accounts[u].backupCodes) + multiset(ConsumedBy(h, u))| == |multiset(h.enrolled[u])|;
  }

  // A code that was enrolled once and has been consumed is refused by every completion that sees the
  // codes of the row.
  lemma ConsumedCodeIsRefused(h0: History, es: seq<Event>, e: Event)
    requires Initial(h0) && AllSawCodes(h0, es) && e.Submit? && !e.totpOk && e.user in Run(h0, es).enrolled
    requires var h := Run(h0, es);
      && e.hash in ConsumedBy(h, e.user) && multiset(h.enrolled[e.user])[e.hash] == 1 && SawCodes(h, e)
    ensures !OutcomeOf(Run(h0, es), e).Success?
  {
    ConservedExactly(h0, es);
    var h := Run(h0, es);
    assert UserConserved(h, e.user);
    assert multiset(ConsumedBy(h, e.user))[e.hash] >= 1;
    assert (multiset(h.s.accounts[e.user].backupCodes) + multiset(ConsumedBy(h, e.user)))[e.hash] == 1;
  }

  lemma OneMore(h: History, e: Event, rest: seq<Event>)
    ensures Run(h, [e] + rest) == Run(Step(h, e), rest)
    ensures Possible(h, [e] + rest) <==> Enabled(h, e) && Possible(Step(h, e), rest)
    ensures AllSawCodes(h, [e] + rest) <==> SawCodes(h, e) && AllSawCodes(Step(h, e), rest)
  {
    assert ([e] + rest)[1..] == rest;
  }

  lemma FourMore(h: History, e1: Event, e2: Event, e3: Event, e4: Event, rest: seq<Event>)
    ensures var es := [e1] + ([e2] + ([e3] + ([e4] + rest)));
      var h1 := Step(h, e1); var h2 := Step(h1, e2); var h3 := Step(h2, e3); var h4 := Step(h3, e4);
      && Run(h, es) == Run(h4, rest)
      && (Possible(h, es) <==> Enabled(h, e1) && Enabled(h1, e2) && Enabled(h2, e3) && Enabled(h3, e4) && Possible(h4, rest))
      && (AllSawCodes(h, es) <==>
            SawCodes(h, e1) && SawCodes(h1, e2) && SawCodes(h2, e3) && SawCodes(h3, e4) && AllSawCodes(h4, rest))
  {
    var h1 := Step(h, e1);
    var h2 := Step(h1, e2);
    OneMore(h, e1, [e2] + ([e3] + ([e4] + rest)));
    OneMore(h1, e2, [e3] + ([e4] + rest));
    OneMore(h2, e3, [e4] + rest);
    OneMore(Step(h2, e3), e4, rest);
    hide Step, Enabled, SawCodes, Run, Possible, AllSawCodes;
  }

  lemma ReuseSteps(h: History, u: UserId, code: CodeHash, id: ChallengeId, other: ChallengeId, at: Time)
    requires id != other && h.now <= at && u in h.s.accounts && h.s.accounts[u] == Account(true, [code])
    requires ConsumedBy(h, u) == [] && u in h.enrolled && h.enrolled[u] == [code]
    requires id in h.s.challenges && h.s.challenges[id] == Challenge(u, at + 300.0, 0, at + 300.0)
    requires other in h.s.challenges && h.s.challenges[other] == h.s.challenges[id]
    ensures var old_ := Some(Account(true, [code]));
      var e, f := Submit(old_, u, id, false, code, at), Submit(old_, u, other, false, code, at);
      var h', h'' := Step(h, e), Step(Step(h, e), f);
      && Enabled(h, e) && Enabled(h', f) && SawCodes(h, e) && !SawCodes(h', f)
      && u in h'.s.accounts && h'.s.accounts[u] == Account(true, [])
      && u in h''.enrolled && h''.enrolled[u] == [code] && ConsumedBy(h'', u) == [code, code]
  {
  }

  // What an old profile does: two serialised completions that both see the one code enrolled both
  // succeed with it, and only the second saw codes that were no longer the row's.
  lemma OldProfileReusesCode(h0: History, u: UserId, code: CodeHash, id: ChallengeId, other: ChallengeId, at: Time)
    requires Initial(h0) && id != other && h0.now <= at
    ensures var old_ := Some(Account(true, [code]));
      var setup := [Enrol(u, [code], at), Begin(old_, u, id, at), Begin(old_, u, other, at)];
      var first, second := Submit(old_, u, id, false, code, at), Submit(old_, u, other, false, code, at);
      var before, h := Run(h0, setup + [first]), Run(h0, setup + [first, second]);
      && Possible(h0, setup + [first, second]) && AllSawCodes(h0, setup + [first]) && !SawCodes(before, second)
      && u in before.s.accounts && before.s.accounts[u] == Account(true, [])
      && u in h.enrolled && h.enrolled[u] == [code] && ConsumedBy(h, u) == [code, code]
  {
    var old_ := Some(Account(true, [code]));
    var e1, e2, e3 := Enrol(u, [code], at), Begin(old_, u, id, at), Begin(old_, u, other, at);
    var e4, e5 := Submit(old_, u, id, false, code, at), Submit(old_, u, other, false, code, at);
    var h1 := Step(h0, e1);
    var h2 := Step(h1, e2);
    var h3 := Step(h2, e3);
    assert id in h3.s.challenges && h3.s.challenges[id] == h3.s.challenges[other];
    ReuseSteps(h3, u, code, id, other, at);
    var h4 := Step(h3, e4);
    assert SawCodes(h0, e1) && SawCodes(h1, e2) && SawCodes(h2, e3);
    assert Enabled(h0, e1) && Enabled(h1, e2) && Enabled(h2, e3);
    hide Step, Enabled, SawCodes, Complete, OutcomeOf;
    var last := [e5] + [];
    OneMore(h4, e5, []);
    FourMore(h0, e1, e2, e3, e4, []);
    FourMore(h0, e1, e2, e3, e4, last);
    assert [e1, e2, e3] + [e4] == [e1] + ([e2] + ([e3] + ([e4] + [])));
    assert [e1, e2, e3] + [e4, e5] == [e1] + ([e2] + ([e3] + ([e4] + last)));
  }
}
