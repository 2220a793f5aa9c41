// Password reset tokens (user_repository.py): a creation is an UPDATE followed by an INSERT, a
// consumption is a verification followed, in another transaction, by a conditional update. Any
// number of both interleave.
module ResetTokens {
  import opened Prelude

  type UserId = nat
  type TokenId = nat
  type PasswordHash = nat
  type Consumer = nat
  type Creator = nat

  // SHA-256 of a raw token, taken as injective.
  datatype Digest = Sha256(raw: nat)

  datatype TokenRow = TokenRow(user: UserId, tokenHash: Digest, expiresAt: Time, usedAt: Option<Time>)

  datatype UserRow = UserRow(isActive: bool, hashedPassword: PasswordHash)

  datatype Tables = Tables(tokens: map<TokenId, TokenRow>, users: map<UserId, UserRow>)

  predicate Unused(t: Tables, id: TokenId) {
    id in t.tokens && t.tokens[id].usedAt.None?
  }

  // The UPDATE of create_password_reset_token.
  function Retire(t: Tables, uid: UserId, now: Time): Tables {
    t.(tokens := map k | k in t.tokens ::
         if t.tokens[k].user == uid && t.tokens[k].usedAt.None? then t.tokens[k].(usedAt := Some(now)) else t.tokens[k])
  }

  // Its INSERT.
  function Insert(t: Tables, uid: UserId, id: TokenId, raw: nat, expiresAt: Time): Tables {
    t.(tokens := t.tokens[id := TokenRow(uid, Sha256(raw), expiresAt, None)])
  }

  // The row that verification accepts.
  predicate Verifiable(t: Tables, id: TokenId, raw: nat, now: Time) {
    && Unused(t, id) && t.tokens[id].tokenHash == Sha256(raw)
    && t.tokens[id].user in t.users && t.users[t.tokens[id].user].isActive
    && now <= t.tokens[id].expiresAt
  }

  // The consuming transaction: mark the token used if it is not, and store the new password.
  function Consume(t: Tables, id: TokenId, uid: UserId, hash: PasswordHash, now: Time): (Tables, bool) {
    if !Unused(t, id) then (t, false)
    else
      (Tables(t.tokens[id := t.tokens[id].(usedAt := Some(now))],
              if uid in t.users then t.users[uid := t.users[uid].(hashedPassword := hash)] else t.users),
       true)
  }

  datatype CreateError = ForeignKeyViolation

  class PasswordResets {
    var tokens: map<TokenId, TokenRow>
    var users: map<UserId, UserRow>

    ghost function Contents(): Tables
      reads this
    {
      Tables(tokens, users)
    }

    ghost predicate HashesUnique()
      reads this
    {
      forall a, b | a in tokens && b in tokens && tokens[a].tokenHash == tokens[b].tokenHash :: a == b
    }

    // A user that does not exist violates the foreign key, and the transaction is rolled back.
    method CreatePasswordResetToken(uid: UserId, id: TokenId, raw: nat, expiresInMinutes: int, now: Time)
      returns (r: Result<nat, CreateError>)
      modifies this
      ensures if uid !in old(users) then r == Err(ForeignKeyViolation) && Contents() == old(Contents())
        else
          r == Ok(raw) &&
          Contents() == Insert(Retire(old(Contents()), uid, now), uid, id, raw, now + 60.0 * expiresInMinutes as real)
    {
      var before := tokens;
      tokens := map k | k in before ::
        if before[k].user == uid && before[k].usedAt == None then before[k].(usedAt := Some(now)) else before[k];
      if uid !in users {
        tokens := before;
        return Err(ForeignKeyViolation);
      }
      tokens := tokens[id := TokenRow(uid, Sha256(raw), now + 60.0 * expiresInMinutes as real, None)];
      return Ok(raw);
    }

    method VerifyPasswordResetToken(raw: nat, now: Time) returns (r: Option<TokenId>)
      requires HashesUnique()
      ensures r.Some? ==> Verifiable(Contents(), r.value, raw, now)
      ensures r.None? ==> forall id :: !Verifiable(Contents(), id, raw, now)
      ensures r.Some? <==> exists id <- tokens ::
        && tokens[id].tokenHash == Sha256(raw) && tokens[id].usedAt == None && now <= tokens[id].expiresAt
        && tokens[id].user in users && users[tokens[id].user].isActive
      ensures r.Some? ==> r.value in tokens && tokens[r.value].tokenHash == Sha256(raw)
    {
      if id :| id in tokens && tokens[id].tokenHash == Sha256(raw) && tokens[id].usedAt == None &&
               tokens[id].user in users {
        if !users[tokens[id].user].isActive {
          return None;
        }
        if now > tokens[id].expiresAt {
          return None;
        }
        return Some(id);
      }
      return None;
    }

    method ConsumeVerified(id: TokenId, uid: UserId, hash: PasswordHash, now: Time) returns (won: bool)
      modifies this
      ensures (Contents(), won) == Consume(old(Contents()), id, uid, hash, now)
    {
      var rowcount := 0;
      if id in tokens && tokens[id].usedAt == None {
        tokens := tokens[id := tokens[id].(usedAt := Some(now))];
        rowcount := 1;
      }
      if rowcount == 0 {
        return false;
      }
      if uid in users {
        users := users[uid := users[uid].(hashedPassword := hash)];
      }
      return true;
    }
  }

  // ---------- interleaved creations and consumptions ----------

  // A consumer that has verified a token and not yet run its transaction.
  datatype Verified = Verified(id: TokenId, raw: nat, uid: UserId, hash: PasswordHash, at: Time)

  datatype Win = Win(id: TokenId, raw: nat, uid: UserId, at: Time)

  datatype State = State(
    t: Tables,
    creating: map<Creator, UserId>,
    consumers: map<Consumer, Verified>,
    wins: seq<Win>,
    usedIds: set<TokenId>,
    usedRaws: set<nat>,
    now: Time)

  datatype Step =
    | BeginCreate(creator: Creator, uid: UserId)
    | EndCreate(creator: Creator, newId: TokenId, newRaw: nat, expiresAt: Time)
    | Verify(consumer: Consumer, id: TokenId, raw: nat, hash: PasswordHash)
    | Finish(consumer: Consumer)
    | SaveUser(user: UserId, row: UserRow)
    | DeleteUser(user: UserId)
    | Wait(to: Time)

  // Ids and raw tokens are random, hence new; Verify names the row that the query returns. The two
  // statements of a creation are two steps: the UPDATE sees the rows committed when it starts and
  // locks those it changes, so no other transaction can use them up; the INSERT counts from its commit.
  predicate Enabled(s: State, a: Step) {
    match a
    case BeginCreate(c, _) => c !in s.creating
    case EndCreate(c, id, raw, _) => c in s.creating && id !in s.usedIds && raw !in s.usedRaws
    case Verify(c, id, raw, _) => c !in s.consumers && Verifiable(s.t, id, raw, s.now)
    case Finish(c) => c in s.consumers
    case SaveUser(_, _) => true
    case DeleteUser(_) => true
    case Wait(to) => s.now <= to
  }

  function Apply(s: State, a: Step): State
    requires Enabled(s, a)
  {
    match a
    case BeginCreate(c, uid) => s.(t := Retire(s.t, uid, s.now), creating := s.creating[c := uid])
    case EndCreate(c, id, raw, expiresAt) =>
      // For a user deleted meanwhile the foreign key fails; no row of that user is left to restore.
      s.(t := if s.creating[c] in s.t.users then Insert(s.t, s.creating[c], id, raw, expiresAt) else s.t,
         creating := s.creating - {c}, usedIds := s.usedIds + {id}, usedRaws := s.usedRaws + {raw})
    case Verify(c, id, raw, hash) =>
      s.(consumers := s.consumers[c := Verified(id, raw, s.t.tokens[id].user, hash, s.now)])
    case Finish(c) =>
      var v := s.consumers[c];
      var (t', won) := Consume(s.t, v.id, v.uid, v.hash, s.now);
      s.(t := t', consumers := s.consumers - {c},
         wins := if won then s.wins + [Win(v.id, s.t.tokens[v.id].tokenHash.raw, v.uid, v.at)] else s.wins)
    case SaveUser(user, row) => s.(t := s.t.(users := s.t.users[user := row]))
    case DeleteUser(user) =>
      s.(t := Tables(map k | k in s.t.tokens && s.t.tokens[k].user != user :: s.t.tokens[k], s.t.users - {user}))
    case Wait(to) => s.(now := to)
  }

  predicate Possible(s: State, steps: seq<Step>)
    decreases |steps|
  {
    steps == [] || (Enabled(s, steps[0]) && Possible(Apply(s, steps[0]), steps[1..]))
  }

  function Run(s: State, steps: seq<Step>): State
    requires Possible(s, steps)
    decreases |steps|
  {
    if steps == [] then s else Run(Apply(s, steps[0]), steps[1..])
  }

  predicate Initial(s: State) {
    s.t.tokens == map[] && s.creating == map[] && s.consumers == map[] && s.wins == [] && s.usedIds == {} && s.usedRaws == {}
  }

  ghost predicate OneUnusedPerUser(t: Tables) {
    forall a, b | Unused(t, a) && Unused(t, b) && t.tokens[a].user == t.tokens[b].user :: a == b
  }

  ghost predicate RowsOk(s: State) {
    && (forall id <- s.t.tokens ::
          id in s.usedIds && s.t.tokens[id].tokenHash.raw in s.usedRaws && s.t.tokens[id].user in s.t.users)
    && (forall a, b | a in s.t.tokens && b in s.t.tokens ::
          s.t.tokens[a].tokenHash == s.t.tokens[b].tokenHash ==> a == b)
  }

  // A consumer carries the owner of its row, and verified it in time.
  ghost predicate ConsumersOk(s: State) {
    && (forall c <- s.consumers :: s.consumers[c].id in s.usedIds)
    && (forall c <- s.consumers :: s.consumers[c].id in s.t.tokens ==>
          && s.consumers[c].uid == s.t.tokens[s.consumers[c].id].user
          && Sha256(s.consumers[c].raw) == s.t.tokens[s.consumers[c].id].tokenHash
          && s.consumers[c].at <= s.t.tokens[s.consumers[c].id].expiresAt)
  }

  // Every win used up its row, and no two wins share a row or a raw token.
  ghost predicate WinsSpent(s: State) {
    && (forall w <- s.wins :: w.id in s.usedIds && w.raw in s.usedRaws && !Unused(s.t, w.id))
    && (forall w <- s.wins, id <- s.t.tokens :: s.t.tokens[id].tokenHash == Sha256(w.raw) ==> id == w.id)
    && (forall i, j | 0 <= i < j < |s.wins| :: s.wins[i].id != s.wins[j].id && s.wins[i].raw != s.wins[j].raw)
  }

  ghost predicate Inv(s: State) {
    RowsOk(s) && ConsumersOk(s) && WinsSpent(s)
  }

  // Except for wins, a step keeps a spent row spent and a row's hash, owner and expiry fixed.
  lemma WinsStaySpent(s: State, s': State)
    requires WinsSpent(s) && s'.wins == s.wins && s.usedIds <= s'.usedIds && s.usedRaws <= s'.usedRaws
    requires forall id | id in s.usedIds && id in s'.t.tokens ::
      id in s.t.tokens && s'.t.tokens[id].tokenHash == s.t.tokens[id].tokenHash && (Unused(s'.t, id) ==> Unused(s.t, id))
    requires forall id <- s'.t.tokens :: id !in s.usedIds ==> s'.t.tokens[id].tokenHash.raw !in s.usedRaws
    ensures WinsSpent(s')
  {
  }

  lemma BeginKeepsInv(s: State, a: Step)
    requires Inv(s) && a.BeginCreate? && Enabled(s, a)
    ensures Inv(Apply(s, a))
  {
    WinsStaySpent(s, Apply(s, a));
    hide WinsSpent;
  }

  lemma EndKeepsInv(s: State, a: Step)
    requires Inv(s) && a.EndCreate? && Enabled(s, a)
    ensures Inv(Apply(s, a))
  {
    WinsStaySpent(s, Apply(s, a));
    hide WinsSpent;
  }

  lemma WinKeepsSpent(s: State, s': State, v: Verified, w: Win)
    requires RowsOk(s) && WinsSpent(s) && Unused(s.t, v.id) && w == Win(v.id, s.t.tokens[v.id].tokenHash.raw, v.uid, v.at)
    requires s'.wins == s.wins + [w] && s'.usedIds == s.usedIds && s'.usedRaws == s.usedRaws
    requires s'.t.tokens == s.t.tokens[v.id := s.t.tokens[v.id].(usedAt := Some(s.now))]
    ensures WinsSpent(s')
  {
    forall u <- s.wins
      ensures u.id != w.id && u.raw != w.raw && !Unused(s'.t, u.id)
    {
      assert !Unused(s.t, u.id);
      assert s.t.tokens[v.id].tokenHash == Sha256(u.raw) ==> v.id == u.id;
    }
    forall i, j | 0 <= i < j < |s'.wins|
      ensures s'.wins[i].id != s'.wins[j].id && s'.wins[i].raw != s'.wins[j].raw
    {
      assert s'.wins[i] == s.wins[i];
    }
  }

  lemma FinishKeepsInv(s: State, a: Step)
    requires Inv(s) && a.Finish? && Enabled(s, a)
    ensures Inv(Apply(s, a))
  {
    var v, s' := s.consumers[a.consumer], Apply(s, a);
    if Unused(s.t, v.id) {
      WinKeepsSpent(s, s', v, Win(v.id, s.t.tokens[v.id].tokenHash.raw, v.uid, v.at));
    } else {
      WinsStaySpent(s, s');
    }
    hide WinsSpent;
  }

  lemma DeleteKeepsInv(s: State, a: Step)
    requires Inv(s) && a.DeleteUser? && Enabled(s, a)
    ensures Inv(Apply(s, a))
  {
  }

  lemma StepKeepsInv(s: State, a: Step)
    requires Inv(s) && Enabled(s, a)
    ensures Inv(Apply(s, a))
  {
    match a
    case BeginCreate(_, _) => BeginKeepsInv(s, a);
    case EndCreate(_, _, _, _) => EndKeepsInv(s, a);
    case Finish(_) => FinishKeepsInv(s, a);
    case DeleteUser(_) => DeleteKeepsInv(s, a);
    case _ =>
  }

  lemma {:induction false} RunKeepsInv(s: State, steps: seq<Step>)
    requires Inv(s) && Possible(s, steps)
    ensures Inv(Run(s, steps))
    decreases |steps|
  {
    if steps == [] {
    } else {
      StepKeepsInv(s, steps[0]);
      RunKeepsInv(Apply(s, steps[0]), steps[1..]);
    }
  }

  // Single use: on every interleaving no raw token is consumed twice.
  lemma EachTokenWinsOnce(s0: State, steps: seq<Step>, i: nat, j: nat)
    requires Initial(s0) && Possible(s0, steps)
    requires var wins := Run(s0, steps).wins; i < |wins| && j < |wins| && wins[i].raw == wins[j].raw
    ensures i == j
  {
    RunKeepsInv(s0, steps);
  }

  // The winning transaction stores its own hash for the owner of the token, uses the token up, and
  // changes nothing else; a losing one changes nothing.
  lemma WinnerStoresItsHash(s0: State, steps: seq<Step>, c: Consumer)
    requires Initial(s0) && Possible(s0, steps) && c in Run(s0, steps).consumers
    ensures var s := Run(s0, steps);
      var v, s' := s.consumers[c], Apply(s, Finish(c));
      if Unused(s.t, v.id) then
        && |s'.wins| == |s.wins| + 1
        && v.uid == s.t.tokens[v.id].user && v.uid in s'.t.users && s'.t.users[v.uid].hashedPassword == v.hash
        && s'.t.users[v.uid].isActive == s.t.users[v.uid].isActive && !Unused(s'.t, v.id)
        && s'.t.users.Keys == s.t.users.Keys && (forall u <- s.t.users :: u != v.uid ==> s'.t.users[u] == s.t.users[u])
        && (forall id <- s.t.tokens :: id != v.id ==> id in s'.t.tokens && s'.t.tokens[id] == s.t.tokens[id])
        && v.at <= s.t.tokens[v.id].expiresAt && s'.wins[|s.wins|].raw == v.raw
      else s'.wins == s.wins && s'.t == s.t
  {
    RunKeepsInv(s0, steps);
  }

  // Only the unused row of the presented text is verified, in time and for an active user; and then
  // the consumer may go on at once and win.
  lemma VerifiedExactly(s0: State, steps: seq<Step>, c: Consumer, id: TokenId, raw: nat, hash: PasswordHash)
    requires Initial(s0) && Possible(s0, steps) && c !in Run(s0, steps).consumers
    ensures var s := Run(s0, steps);
      Enabled(s, Verify(c, id, raw, hash)) <==>
        && id in s.t.tokens && s.t.tokens[id].tokenHash == Sha256(raw) && s.t.tokens[id].usedAt == None
        && s.now <= s.t.tokens[id].expiresAt
        && s.t.tokens[id].user in s.t.users && s.t.users[s.t.tokens[id].user].isActive
    ensures var s := Run(s0, steps);
      Enabled(s, Verify(c, id, raw, hash)) ==>
        var s1 := Apply(s, Verify(c, id, raw, hash));
        Enabled(s1, Finish(c)) && Apply(s1, Finish(c)).wins == s.wins + [Win(id, raw, s.t.tokens[id].user, s.now)]
  {
  }

  // A row that is used or gone stays so, and is never won again.
  lemma {:induction false} SpentStaysSpent(s: State, steps: seq<Step>, id: TokenId)
    requires Possible(s, steps) && id in s.usedIds && !Unused(s.t, id)
    ensures !Unused(Run(s, steps).t, id)
    ensures forall k :: |s.wins| <= k < |Run(s, steps).wins| ==> Run(s, steps).wins[k].id != id
    ensures |s.wins| <= |Run(s, steps).wins| && Run(s, steps).wins[..|s.wins|] == s.wins
    decreases |steps|
  {
    if steps == [] {
    } else {
      var s' := Apply(s, steps[0]);
      SpentStaysSpent(s', steps[1..], id);
      assert s'.wins[..|s.wins|] == s.wins;
      var end := Run(s', steps[1..]).wins;
      assert end[..|s.wins|] == end[..|s'.wins|][..|s.wins|];
      if |s.wins| < |s'.wins| {
        assert end[|s.wins|] == s'.wins[|s.wins|] by {
          assert end[..|s'.wins|][|s.wins|] == s'.wins[|s.wins|];
        }
        assert s'.wins[|s.wins|].id == s.consumers[steps[0].consumer].id;
      }
    }
  }

  // Beginning a creation retires the old tokens, also for a consumer that had already verified one:
  // in no continuation does an earlier token of that user win.
  lemma NewTokenRetiresOldOnes(s0: State, before: seq<Step>, create: Step, after: seq<Step>, id: TokenId, k: nat)
    requires Initial(s0) && Possible(s0, before) && create.BeginCreate?
    requires var s := Run(s0, before);
      && Enabled(s, create) && id in s.t.tokens && s.t.tokens[id].user == create.uid
      && Possible(Apply(s, create), after)
    requires |Run(s0, before).wins| <= k < |Run(Apply(Run(s0, before), create), after).wins|
    ensures Run(Apply(Run(s0, before), create), after).wins[k].id != id
  {
    RunKeepsInv(s0, before);
    SpentStaysSpent(Apply(Run(s0, before), create), after, id);
  }

  // ---------- how many unused tokens a user can have ----------

  // The user of a new row has no unused token when the row comes in.
  ghost predicate ComesAlone(s: State, a: Step)
    requires Enabled(s, a)
  {
    a.EndCreate? && s.creating[a.creator] in s.t.users ==>
      forall id :: Unused(s.t, id) ==> s.t.tokens[id].user != s.creating[a.creator]
  }

  lemma OneUnusedStepExactly(s: State, a: Step)
    requires Inv(s) && OneUnusedPerUser(s.t) && Enabled(s, a)
    ensures OneUnusedPerUser(Apply(s, a).t) <==> ComesAlone(s, a)
  {
    var t' := Apply(s, a).t;
    if a.EndCreate? && !ComesAlone(s, a) {
      var id :| Unused(s.t, id) && s.t.tokens[id].user == s.creating[a.creator];
      assert Unused(t', id) && Unused(t', a.newId) && id != a.newId;
    }
  }

  ghost predicate AlwaysOneUnused(s: State, steps: seq<Step>)
    requires Possible(s, steps)
    decreases |steps|
  {
    OneUnusedPerUser(s.t) && (steps == [] || AlwaysOneUnused(Apply(s, steps[0]), steps[1..]))
  }

  ghost predicate AllComeAlone(s: State, steps: seq<Step>)
    requires Possible(s, steps)
    decreases |steps|
  {
    steps == [] || (ComesAlone(s, steps[0]) && AllComeAlone(Apply(s, steps[0]), steps[1..]))
  }

  // A user has at most one unused token throughout a run exactly when each new row comes in alone.
  lemma {:induction false} OneUnusedExactly(s: State, steps: seq<Step>)
    requires Inv(s) && OneUnusedPerUser(s.t) && Possible(s, steps)
    ensures AlwaysOneUnused(s, steps) <==> AllComeAlone(s, steps)
    decreases |steps|
  {
    if steps == [] {
    } else {
      OneUnusedStepExactly(s, steps[0]);
      StepKeepsInv(s, steps[0]);
      if ComesAlone(s, steps[0]) {
        OneUnusedExactly(Apply(s, steps[0]), steps[1..]);
      } else {
        assert !AlwaysOneUnused(Apply(s, steps[0]), steps[1..]);
      }
    }
  }

  // Creations for one user do not overlap.
  predicate TakesTurns(s: State, a: Step) {
    a.BeginCreate? ==> forall c <- s.creating :: s.creating[c] != a.uid
  }

  predicate AllTakeTurns(s: State, steps: seq<Step>)
    requires Possible(s, steps)
    decreases |steps|
  {
    steps == [] || (TakesTurns(s, steps[0]) && AllTakeTurns(Apply(s, steps[0]), steps[1..]))
  }

  // A user whose token is being created has no unused one, and only one creation at a time.
  ghost predicate CreatorsApart(s: State) {
    && (forall c <- s.creating, id :: Unused(s.t, id) ==> s.t.tokens[id].user != s.creating[c])
    && (forall c, d | c in s.creating && d in s.creating && s.creating[c] == s.creating[d] :: c == d)
  }

  lemma TurnKeepsApart(s: State, a: Step)
    requires Enabled(s, a) && TakesTurns(s, a) && CreatorsApart(s)
    ensures CreatorsApart(Apply(s, a)) && ComesAlone(s, a)
  {
    var s' := Apply(s, a);
    assert forall id :: Unused(s'.t, id) && !(a.EndCreate? && id == a.newId) ==>
      Unused(s.t, id) && s'.t.tokens[id].user == s.t.tokens[id].user;
  }

  lemma {:induction false} TurnsKeepOneUnused(s: State, steps: seq<Step>)
    requires Inv(s) && OneUnusedPerUser(s.t) && CreatorsApart(s) && Possible(s, steps) && AllTakeTurns(s, steps)
    ensures AlwaysOneUnused(s, steps)
    decreases |steps|
  {
    if steps == [] {
    } else {
      TurnKeepsApart(s, steps[0]);
      OneUnusedStepExactly(s, steps[0]);
      StepKeepsInv(s, steps[0]);
      TurnsKeepOneUnused(Apply(s, steps[0]), steps[1..]);
    }
  }

  // While the creations for each user take turns, a user never has two unused tokens, whatever else
  // interleaves.
  lemma AtMostOneUnusedToken(s0: State, steps: seq<Step>)
    requires Initial(s0) && Possible(s0, steps) && AllTakeTurns(s0, steps)
    ensures AlwaysOneUnused(s0, steps)
  {
    TurnsKeepOneUnused(s0, steps);
  }

  lemma OneMore(s: State, a: Step, rest: seq<Step>)
    requires Enabled(s, a) && Possible(Apply(s, a), rest)
    ensures Possible(s, [a] + rest) && Run(s, [a] + rest) == Run(Apply(s, a), rest)
  {
    assert ([a] + rest)[1..] == rest;
  }

  // From any state, two creations for one user that overlap leave two unused tokens.
  lemma OverlapLeavesTwo(s: State, uid: UserId, c: Creator, d: Creator, id: TokenId, other: TokenId,
                         raw: nat, otherRaw: nat, expiresAt: Time)
    returns (steps: seq<Step>)
    requires uid in s.t.users && c != d && c !in s.creating && d !in s.creating
    requires id != other && id !in s.usedIds && other !in s.usedIds
    requires raw != otherRaw && raw !in s.usedRaws && otherRaw !in s.usedRaws
    ensures Possible(s, steps) && !OneUnusedPerUser(Run(s, steps).t)
  {
    var a1, a2 := BeginCreate(c, uid), BeginCreate(d, uid);
    var a3, a4 := EndCreate(c, id, raw, expiresAt), EndCreate(d, other, otherRaw, expiresAt);
    var s1 := Apply(s, a1);
    var s2 := Apply(s1, a2);
    assert s2.t.users == s.t.users && s2.creating[c] == uid && s2.creating[d] == uid;
    var s3 := Apply(s2, a3);
    assert s3.t == Insert(s2.t, uid, id, raw, expiresAt) && s3.creating[d] == uid;
    var s4 := Apply(s3, a4);
    assert s4.t == Insert(s3.t, uid, other, otherRaw, expiresAt);
    hide Apply;
    assert Unused(s4.t, id) && Unused(s4.t, other) && s4.t.tokens[id].user == s4.t.tokens[other].user;
    hide Unused, Insert;
    OneMore(s3, a4, []);
    OneMore(s2, a3, [a4] + []);
    OneMore(s1, a2, [a3] + ([a4] + []));
    steps := [a1] + ([a2] + ([a3] + ([a4] + [])));
    OneMore(s, a1, [a2] + ([a3] + ([a4] + [])));
  }
}
