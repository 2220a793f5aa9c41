// Refresh-token rotation with reuse detection (refresh_tokens in api/v1/auth_router.py), section
// 4.14.2 of RFC 9700. Refreshes are serialised; either backend of the revocation store may be used.
module RefreshFamilies {
  import opened Prelude
  import opened TokenService
  import Sessions

  datatype Outcome =
    | Rotated(access: Token, refresh: Token)
    | TokenExpired
    | TokenInvalid
    | NotRefreshToken
    | FamilyAlreadyRevoked
    | ReuseDetected
    | AccountInactive

  // `spent` and `burned` record history for the proofs: token ids used up by a refresh or a logout,
  // and families ever revoked. The code cannot see them; it only has the store.
  datatype State = State(
    store: Store,
    minted: set<Token>,
    nextJti: Jti,
    nextFamily: Family,
    now: Time,
    spent: set<Jti>,
    burned: set<Family>)

  datatype Event =
    | Login
    | Present(token: Token, active: bool)
    | Logout(bearer: Token)
    | Wait(to: Time)

  function NewToken(s: State, jti: Jti, family: Option<Family>, kind: Kind, lifetime: int): Token {
    Token(jti, family, kind, ExpiryOf(s.now, lifetime), true)
  }

  const ACCESS_LIFETIME := 900

  // An access token and the first refresh token of a new family.
  function LoginStep(s: State): State {
    var access := NewToken(s, s.nextJti, None, Access, ACCESS_LIFETIME);
    var refresh := NewToken(s, s.nextJti + 1, Some(s.nextFamily), Refresh, WEEK);
    s.(minted := s.minted + {access, refresh}, nextJti := s.nextJti + 2, nextFamily := s.nextFamily + 1)
  }

  // One call of the refresh endpoint, in the order of its checks.
  function RefreshStep(s: State, t: Token, active: bool): (State, Outcome) {
    if !t.signed then (s, TokenInvalid)
    else if !Unexpired(t, s.now) then (s, TokenExpired)
    else if t.kind != Refresh then (s, NotRefreshToken)
    else if t.family.Some? && FamilyIsRevoked(s.store, t.family.value, s.now) then (s, FamilyAlreadyRevoked)
    else if TokenRevoked(s.store, Id(t.jti), s.now) then
      if t.family.Some? then
        (s.(store := RevokeFamily(s.store, t.family.value, s.now), burned := s.burned + {t.family.value}), ReuseDetected)
      else (s, ReuseDetected)
    else if !active then (s, AccountInactive)
    else
      var access := NewToken(s, s.nextJti, None, Access, ACCESS_LIFETIME);
      var family := if t.family.Some? then t.family.value else s.nextFamily;
      var refresh := NewToken(s, s.nextJti + 1, Some(family), Refresh, WEEK);
      (s.(store := Revoke(s.store, Id(t.jti), Some(t.exp), s.now),
          minted := s.minted + {access, refresh},
          nextJti := s.nextJti + 2,
          nextFamily := if t.family.Some? then s.nextFamily else s.nextFamily + 1,
          spent := s.spent + {t.jti}),
       Rotated(access, refresh))
  }

  // Logout revokes the id of the bearer token that authenticated the call.
  function LogoutStep(s: State, t: Token): State {
    if Decode(s.store, t, s.now).Ok? then
      s.(store := Revoke(s.store, Id(t.jti), Some(t.exp), s.now), spent := s.spent + {t.jti})
    else s
  }

  function Apply(s: State, e: Event): State {
    match e
    case Login => LoginStep(s)
    case Present(t, active) => RefreshStep(s, t, active).0
    case Logout(t) => LogoutStep(s, t)
    case Wait(to) => s.(now := to)
  }

  // Only the service signs tokens, and the clock does not go back.
  predicate Possible(s: State, e: Event) {
    match e
    case Login => true
    case Present(t, _) => t.signed ==> t in s.minted
    case Logout(t) => t.signed ==> t in s.minted
    case Wait(to) => s.now <= to
  }

  predicate PossibleRun(s: State, es: seq<Event>)
    decreases |es|
  {
    es == [] || (Possible(s, es[0]) && PossibleRun(Apply(s, es[0]), es[1..]))
  }

  function RunEvents(s: State, es: seq<Event>): State
    decreases |es|
  {
    if es == [] then s else RunEvents(Apply(s, es[0]), es[1..])
  }

  predicate IsInitial(s: State) {
    && s == State(s.store, {}, 0, 0, s.now, {}, {})
    && (s.store == Redis(map[], map[]) || s.store == Memory({}, {}))
  }

  // ---------- the invariant ----------

  // The revocation of token id j stays in force until time `until`.
  predicate IdRevokedUntil(store: Store, j: Jti, until: Time) {
    match store
    case Redis(keys, _) => Id(j) in keys && until <= keys[Id(j)]
    case Memory(blocklist, _) => Id(j) in blocklist
  }

  predicate FamilyRevokedUntil(store: Store, f: Family, until: Time) {
    match store
    case Redis(_, familyKeys) => f in familyKeys && until <= familyKeys[f]
    case Memory(_, revokedFamilies) => f in revokedFamilies
  }

  predicate IdKnown(store: Store, i: Ident) {
    match store
    case Redis(keys, _) => i in keys
    case Memory(blocklist, _) => i in blocklist
  }

  predicate FamilyKnown(store: Store, f: Family) {
    match store
    case Redis(_, familyKeys) => f in familyKeys
    case Memory(_, revokedFamilies) => f in revokedFamilies
  }

  ghost predicate WellNumbered(s: State) {
    && (forall t <- s.minted :: t.jti < s.nextJti && t.signed)
    && (forall t <- s.minted :: t.kind == Refresh ==> t.family.Some? && t.family.value < s.nextFamily)
    && (forall t <- s.minted :: t.kind == Access ==> t.family.None?)
    && (forall t, u | t in s.minted && u in s.minted && t.jti == u.jti :: t == u)
    && (forall t <- s.minted :: t.exp as real <= s.now + WEEK as real)
  }

  // The store knows exactly the history, and holds each revocation as long as it matters.
  ghost predicate StoreMatches(s: State) {
    && (forall i :: IdKnown(s.store, i) ==> i.Id? && i.jti in s.spent)
    && (forall f :: FamilyKnown(s.store, f) ==> f in s.burned)
    && (forall t <- s.minted :: t.jti in s.spent ==> IdRevokedUntil(s.store, t.jti, t.exp as real))
    && (forall t <- s.minted :: t.family.Some? && t.family.value in s.burned ==>
          FamilyRevokedUntil(s.store, t.family.value, t.exp as real))
    && (forall j <- s.spent :: j < s.nextJti)
    && (forall f <- s.burned :: f < s.nextFamily)
  }

  ghost predicate OneUnspentPerFamily(s: State) {
    forall t, u | t in s.minted && u in s.minted && t.kind == Refresh && u.kind == Refresh ::
      t.family == u.family && t.jti !in s.spent && u.jti !in s.spent ==> t == u
  }

  ghost predicate Inv(s: State) {
    WellNumbered(s) && StoreMatches(s) && OneUnspentPerFamily(s)
  }

  // The verdict the endpoint should give, read off the full history.
  predicate Usable(s: State, t: Token) {
    && t in s.minted && t.kind == Refresh && Unexpired(t, s.now)
    && t.jti !in s.spent && (t.family.Some? ==> t.family.value !in s.burned)
  }

  lemma StoreTellsHistory(s: State, t: Token)
    requires Inv(s) && t in s.minted && Unexpired(t, s.now)
    ensures TokenRevoked(s.store, Id(t.jti), s.now) <==> t.jti in s.spent
    ensures t.family.Some? ==> (FamilyIsRevoked(s.store, t.family.value, s.now) <==> t.family.value in s.burned)
    ensures !TokenRevoked(s.store, Raw(t), s.now) || t.jti in s.spent
  {
    assert IdKnown(s.store, Id(t.jti)) ==> t.jti in s.spent;
    assert !IdKnown(s.store, Raw(t));
    if t.family.Some? {
      assert FamilyKnown(s.store, t.family.value) ==> t.family.value in s.burned;
    }
  }

  lemma LoginKeepsInv(s: State)
    requires Inv(s)
    ensures Inv(LoginStep(s))
  {
    assert StoreMatches(LoginStep(s)) by {
      hide OneUnspentPerFamily;
    }
    assert WellNumbered(LoginStep(s)) && OneUnspentPerFamily(LoginStep(s)) by {
      hide IdRevokedUntil, FamilyRevokedUntil, IdKnown, FamilyKnown;
    }
    hide StoreMatches, WellNumbered, OneUnspentPerFamily;
  }

  lemma RevokeIdKeeps(s: State, t: Token)
    requires Inv(s) && t in s.minted
    ensures Inv(s.(store := Revoke(s.store, Id(t.jti), Some(t.exp), s.now), spent := s.spent + {t.jti}))
  {
  }

  lemma RevokeFamilyKeeps(s: State, f: Family)
    requires Inv(s) && f < s.nextFamily
    ensures Inv(s.(store := RevokeFamily(s.store, f, s.now), burned := s.burned + {f}))
  {
  }

  // Adding the successor of a spent token to its family.
  lemma MintNextKeeps(s: State, family: Family)
    requires Inv(s) && family < s.nextFamily && family !in s.burned
    requires forall t <- s.minted :: t.kind == Refresh && t.family == Some(family) ==> t.jti in s.spent
    ensures Inv(s.(minted := s.minted + {NewToken(s, s.nextJti, None, Access, ACCESS_LIFETIME),
                                         NewToken(s, s.nextJti + 1, Some(family), Refresh, WEEK)},
                   nextJti := s.nextJti + 2))
  {
  }

  lemma PresentKeepsInv(s: State, t: Token, active: bool)
    requires Inv(s) && (t.signed ==> t in s.minted)
    ensures Inv(RefreshStep(s, t, active).0)
  {
    var (s', out) := RefreshStep(s, t, active);
    if out.ReuseDetected? {
      RevokeFamilyKeeps(s, t.family.value);
    } else if out.Rotated? {
      StoreTellsHistory(s, t);
      RevokeIdKeeps(s, t);
      var mid := s.(store := Revoke(s.store, Id(t.jti), Some(t.exp), s.now), spent := s.spent + {t.jti});
      MintNextKeeps(mid, t.family.value);
    }
  }

  lemma ApplyKeepsInv(s: State, e: Event)
    requires Inv(s) && Possible(s, e)
    ensures Inv(Apply(s, e))
  {
    match e
    case Login => LoginKeepsInv(s);
    case Present(t, active) => PresentKeepsInv(s, t, active);
    case Logout(t) => if Decode(s.store, t, s.now).Ok? { RevokeIdKeeps(s, t); }
    case Wait(_) =>
  }

  lemma {:induction false} RunKeepsInv(s: State, es: seq<Event>)
    requires Inv(s) && PossibleRun(s, es)
    ensures Inv(RunEvents(s, es))
    decreases |es|
  {
    if es == [] {
    } else {
      ApplyKeepsInv(s, es[0]);
      RunKeepsInv(Apply(s, es[0]), es[1..]);
    }
  }

  ghost predicate Reachable(s: State) {
    exists s0, es :: IsInitial(s0) && PossibleRun(s0, es) && RunEvents(s0, es) == s
  }

  lemma ReachableInv(s: State)
    requires Reachable(s)
    ensures Inv(s)
  {
    var s0, es :| IsInitial(s0) && PossibleRun(s0, es) && RunEvents(s0, es) == s;
    RunKeepsInv(s0, es);
  }

  // ---------- the results ----------

  // In every reachable state, with keys that expire or sets that do not, the endpoint rotates a
  // token exactly when the full history says it may.
  lemma RotationFollowsHistory(s: State, t: Token, active: bool)
    requires Reachable(s) && (t.signed ==> t in s.minted)
    ensures RefreshStep(s, t, active).1.Rotated? <==> Usable(s, t) && t.signed && active
  {
    ReachableInv(s);
    if t.signed && Unexpired(t, s.now) {
      StoreTellsHistory(s, t);
    }
  }

  // Every answer of the endpoint, read off the history; only a rotation and a detected reuse change
  // anything, so a refused token is not used up.
  lemma AnswersFollowHistory(s: State, t: Token, active: bool)
    requires Reachable(s) && (t.signed ==> t in s.minted)
    ensures var (s', out) := RefreshStep(s, t, active);
      && (out.Rotated? || out.ReuseDetected? || s' == s)
      && (if !t.signed then out == TokenInvalid
          else if s.now >= t.exp as real then out == TokenExpired
          else if t.kind != Refresh then out == NotRefreshToken
          else if t.family.Some? && t.family.value in s.burned then out == FamilyAlreadyRevoked
          else if t.jti in s.spent then
            out == ReuseDetected && t.family.Some? && s'.burned == s.burned + {t.family.value} && s'.minted == s.minted
          else if !active then out == AccountInactive
          else out.Rotated? && s'.spent == s.spent + {t.jti} && s'.burned == s.burned)
  {
    ReachableInv(s);
    if t.signed && Unexpired(t, s.now) {
      StoreTellsHistory(s, t);
    }
    hide StoreMatches, OneUnspentPerFamily, TokenRevoked, FamilyIsRevoked;
  }

  // After a logout the bearer token that authenticated it is never accepted again.
  lemma LogoutEndsBearer(s: State, t: Token, to: Time)
    requires Reachable(s) && Decode(s.store, t, s.now).Ok? && t in s.minted && s.now <= to
    ensures !Decode(LogoutStep(s, t).store, t, to).Ok?
  {
    ReachableInv(s);
    RevokeIdKeeps(s, t);
    hide OneUnspentPerFamily;
  }

  // Rotation safety: at most one refresh token of a family can still be rotated.
  lemma AtMostOneUsable(s: State, t: Token, u: Token)
    requires Reachable(s) && Usable(s, t) && Usable(s, u) && t.family == u.family
    ensures t == u
  {
    ReachableInv(s);
  }

  // Rotating a token makes it unusable and hands out one usable successor in the same family.
  lemma RotationPassesTheFamilyOn(s: State, t: Token)
    requires Reachable(s) && (t.signed ==> t in s.minted)
    requires RefreshStep(s, t, true).1.Rotated?
    ensures var (s', out) := RefreshStep(s, t, true);
      && !Usable(s', t) && Usable(s', out.refresh)
      && out.refresh.family == t.family && out.refresh !in s.minted
      && forall u :: Usable(s', u) && u.family == t.family ==> u == out.refresh
  {
    ReachableInv(s);
    StoreTellsHistory(s, t);
    PresentKeepsInv(s, t, true);
    var (s', out) := RefreshStep(s, t, true);
    assert out.refresh.exp as real > s.now;
  }

  // What a login or a rotation hands out at time s.now. The access token decodes for its 900 s, short
  // of the fraction that whole-second stamps cut off, and then has expired; the refresh token can be
  // rotated for 604800 s likewise.
  ghost predicate FreshPair(s: State, access: Token, refresh: Token) {
    && access in s.minted && access.kind == Access && access.family == None
    && refresh in s.minted && refresh.kind == Refresh && refresh.family.Some? && refresh.jti != access.jti
    && (forall to | s.now <= to < s.now + 899.0 :: Decode(s.store, access, to) == Ok(access))
    && (forall to | s.now + 900.0 <= to :: Decode(s.store, access, to) == Err(Expired))
    && (forall to | s.now <= to < s.now + 604799.0 ::
          Usable(s.(now := to), refresh) && RefreshStep(s.(now := to), refresh, true).1.Rotated?)
    && (forall to | s.now + 604800.0 <= to :: RefreshStep(s.(now := to), refresh, true).1 == TokenExpired)
  }

  lemma NewPairIsFresh(s: State, access: Token, refresh: Token)
    requires Inv(s) && access in s.minted && refresh in s.minted && access.jti != refresh.jti
    requires access == Token(access.jti, None, Access, ExpiryOf(s.now, 900), true) && access.jti !in s.spent
    requires refresh == Token(refresh.jti, refresh.family, Refresh, ExpiryOf(s.now, 604800), true)
    requires refresh.jti !in s.spent && refresh.family.Some? && refresh.family.value !in s.burned
    ensures FreshPair(s, access, refresh)
  {
    assert !IdKnown(s.store, Id(access.jti)) && !IdKnown(s.store, Raw(access));
    assert !IdKnown(s.store, Id(refresh.jti)) && !FamilyKnown(s.store, refresh.family.value);
    hide Inv;
  }

  // Rotation mints such a pair, both tokens new.
  lemma RotationMintsPair(s: State, t: Token)
    requires Reachable(s) && (t.signed ==> t in s.minted)
    requires RefreshStep(s, t, true).1.Rotated?
    ensures var (s', out) := RefreshStep(s, t, true);
      && s'.minted == s.minted + {out.access, out.refresh} && out.access !in s.minted && out.refresh !in s.minted
      && FreshPair(s', out.access, out.refresh)
  {
    ReachableInv(s);
    StoreTellsHistory(s, t);
    PresentKeepsInv(s, t, true);
    var (s', out) := RefreshStep(s, t, true);
    NewPairIsFresh(s', out.access, out.refresh);
    hide FreshPair, StoreMatches, OneUnspentPerFamily;
  }

  // A login mints such a pair too, the refresh token in a family of its own.
  lemma LoginMintsPair(s: State) returns (access: Token, refresh: Token)
    requires Reachable(s)
    ensures LoginStep(s).minted == s.minted + {access, refresh} && access !in s.minted && refresh !in s.minted
    ensures FreshPair(LoginStep(s), access, refresh)
    ensures forall t <- s.minted :: t.family != refresh.family
  {
    ReachableInv(s);
    LoginKeepsInv(s);
    access := NewToken(s, s.nextJti, None, Access, ACCESS_LIFETIME);
    refresh := NewToken(s, s.nextJti + 1, Some(s.nextFamily), Refresh, WEEK);
    NewPairIsFresh(LoginStep(s), access, refresh);
    hide FreshPair, StoreMatches, OneUnspentPerFamily;
  }

  // Reuse detection: a spent token shown again before it expires always leaves its family revoked.
  lemma ReuseRevokesFamily(s: State, t: Token, active: bool)
    requires Reachable(s) && t in s.minted && t.kind == Refresh
    requires t.jti in s.spent && Unexpired(t, s.now)
    ensures t.family.Some? && t.family.value in RefreshStep(s, t, active).0.burned
    ensures RefreshStep(s, t, active).1 ==
            if t.family.value in s.burned then FamilyAlreadyRevoked else ReuseDetected
  {
    ReachableInv(s);
    StoreTellsHistory(s, t);
  }

  // No event clears a family: a burned family stays without a usable token for ever, although its
  // revocation key lasts only a week.
  lemma {:induction false} CascadeIsPermanent(s: State, es: seq<Event>, f: Family)
    requires Inv(s) && PossibleRun(s, es) && f in s.burned
    ensures f in RunEvents(s, es).burned
    ensures forall i | 0 <= i < |es| && es[i].Present? && es[i].token.family == Some(f) ::
      !RefreshStep(RunEvents(s, es[..i]), es[i].token, es[i].active).1.Rotated?
    decreases |es|
  {
    if es == [] {
    } else {
      var s' := Apply(s, es[0]);
      ApplyKeepsInv(s, es[0]);
      assert f in s'.burned;
      CascadeIsPermanent(s', es[1..], f);
      forall i | 0 <= i < |es| && es[i].Present? && es[i].token.family == Some(f)
        ensures !RefreshStep(RunEvents(s, es[..i]), es[i].token, es[i].active).1.Rotated?
      {
        if i == 0 {
          assert RunEvents(s, es[..0]) == s;
          var t := es[0].token;
          if t.signed && Unexpired(t, s.now) {
            StoreTellsHistory(s, t);
          }
        } else {
          assert es[..i][0] == es[0] && es[..i][1..] == es[1..][..i - 1];
          assert RunEvents(s, es[..i]) == RunEvents(s', es[1..][..i - 1]);
          assert es[1..][i - 1] == es[i];
        }
      }
    }
  }

  lemma {:induction false} SpentStays(s: State, es: seq<Event>, t: Token)
    requires PossibleRun(s, es) && t in s.minted
    ensures t.jti in s.spent ==> t.jti in RunEvents(s, es).spent
    ensures t in RunEvents(s, es).minted
    decreases |es|
  {
    if es == [] {
    } else {
      SpentStays(Apply(s, es[0]), es[1..], t);
    }
  }

  // The whole story of a stolen token: it is rotated once, whatever happens then, it is shown again
  // before it expires; from then on no refresh of that family ever succeeds, by thief or owner.
  lemma StolenTokenEndsTheFamily(s: State, t: Token, between: seq<Event>, active: bool, later: seq<Event>, i: nat)
    requires Reachable(s) && RefreshStep(s, t, true).1.Rotated? && t in s.minted
    requires var s1 := RefreshStep(s, t, true).0;
      PossibleRun(s1, between) && Unexpired(t, RunEvents(s1, between).now)
    requires var s2 := RunEvents(RefreshStep(s, t, true).0, between);
      PossibleRun(RefreshStep(s2, t, active).0, later)
    requires i < |later| && later[i].Present? && later[i].token.family == t.family
    ensures var s3 := RefreshStep(RunEvents(RefreshStep(s, t, true).0, between), t, active).0;
      !RefreshStep(RunEvents(s3, later[..i]), later[i].token, later[i].active).1.Rotated?
  {
    hide StoreMatches, OneUnspentPerFamily;
    ReachableInv(s);
    var s1 := RefreshStep(s, t, true).0;
    PresentKeepsInv(s, t, true);
    var s2 := RunEvents(s1, between);
    RunKeepsInv(s1, between);
    SpentStays(s1, between, t);
    StoreTellsHistory(s2, t);
    PresentKeepsInv(s2, t, active);
    CascadeIsPermanent(RefreshStep(s2, t, active).0, later, t.family.value);
  }

  // The endpoint over the service objects; `user` is the subject claim. Reuse also ends the user's
  // sessions, and nothing else touches a session.
  method RefreshTokens(svc: TokenService, sessions: Sessions.SessionStore, t: Token, user: Sessions.UserId, active: bool,
                       now: Time, nextJti: Jti, nextFamily: Family)
    returns (out: Outcome)
    requires sessions.Valid()
    modifies svc, sessions
    ensures sessions.Valid()
    ensures sessions.inMemorySessions ==
      if out == ReuseDetected && user != "" then
        old(sessions.inMemorySessions) - Sessions.Owned(old(sessions.inMemorySessions), user)
      else old(sessions.inMemorySessions)
    ensures forall s: State |
        s.store == old(svc.Contents()) && s.now == now && s.nextJti == nextJti && s.nextFamily == nextFamily ::
      svc.Contents() == RefreshStep(s, t, active).0.store && out == RefreshStep(s, t, active).1
  {
    if !t.signed {
      return TokenInvalid;
    }
    if now >= t.exp as real {
      return TokenExpired;
    }
    if t.kind != Refresh {
      return NotRefreshToken;
    }
    if t.family.Some? {
      var revoked := svc.IsFamilyRevoked(t.family.value, now);
      if revoked {
        return FamilyAlreadyRevoked;
      }
    }
    var reused := svc.IsTokenRevoked(Id(t.jti), now);
    if reused {
      if t.family.Some? {
        var _ := svc.RevokeTokenFamily(t.family.value, now);
      }
      if user != "" {
        var _ := sessions.DeleteAllUserSessions(user, None);
      }
      return ReuseDetected;
    }
    if !active {
      return AccountInactive;
    }
    var _ := svc.RevokeToken(Id(t.jti), Some(t.exp), now);
    var access := Token(nextJti, None, Access, ExpiryOf(now, ACCESS_LIFETIME), true);
    var family := if t.family.Some? then t.family.value else nextFamily;
    var refresh := Token(nextJti + 1, Some(family), Refresh, ExpiryOf(now, WEEK), true);
    return Rotated(access, refresh);
  }
}
