// How old a cached answer can be when every invalidation message may be lost.
module CacheStaleness {
  import opened Prelude
  import opened Text
  import opened ProfileCache
  import opened CacheProtocol

  // set_user follows its database read within `gap` seconds.
  predicate Prompt(w: World, a: Action, gap: Time) {
    a.SetFetched? && a.worker in w.fetched && w.fetched[a.worker] != [] ==> w.now <= w.fetched[a.worker][0].at + gap
  }

  ghost predicate IsPromptRun(cfg: Config, ws: seq<World>, acts: seq<Action>, gap: Time) {
    IsRun(cfg, ws, acts) && forall i :: 0 <= i < |acts| ==> Prompt(ws[i], acts[i], gap)
  }

  // The database held u in world i of the run, not more than `age` before `exp`.
  ghost predicate HeldAt(ws: seq<World>, i: nat, u: User, exp: Time, age: Time) {
    i < |ws| && u.id in ws[i].db && ws[i].db[u.id] == u && exp <= ws[i].now + age
  }

  ghost predicate Held(ws: seq<World>, u: User, exp: Time, age: Time) {
    exists i: nat :: HeldAt(ws, i, u, exp, age)
  }

  predicate Names(u: User, key: string) {
    Clean(u.username) == key || Clean(u.email) == key
  }

  // Some row of uid bore the identifier.
  ghost predicate NamedAt(ws: seq<World>, i: nat, uid: UserId, key: string, exp: Time, age: Time) {
    i < |ws| && uid in ws[i].db && Names(ws[i].db[uid], key) && exp <= ws[i].now + age
  }

  ghost predicate Named(ws: seq<World>, uid: UserId, key: string, exp: Time, age: Time) {
    exists i: nat :: NamedAt(ws, i, uid, key, exp, age)
  }

  ghost predicate UsersHeld(ws: seq<World>, t: Tier, age: Time) {
    forall uid <- t.users :: t.users[uid].value.id == uid && Held(ws, t.users[uid].value, t.users[uid].exp, age)
  }

  ghost predicate IdentsNamed(ws: seq<World>, t: Tier, age: Time) {
    forall key <- t.idents :: Named(ws, t.idents[key].value, key, t.idents[key].exp, age)
  }

  ghost predicate TierSourced(ws: seq<World>, t: Tier, age: Time) {
    UsersHeld(ws, t, age) && IdentsNamed(ws, t, age)
  }

  ghost predicate FetchedSourced(ws: seq<World>, fs: seq<Fetched>) {
    forall f <- fs :: Held(ws, f.user, f.at, 0.0)
  }

  // An L2 entry expires within gap + l2Ttl of its row, an L1 entry within gap + l2Ttl + l1Ttl,
  // because an L2 hit restarts the L1 clock and never the L2 clock.
  ghost predicate Sourced(cfg: Config, ws: seq<World>, gap: Time)
    requires ws != []
  {
    var w := ws[|ws| - 1];
    && WellFormed(w)
    && TierSourced(ws, w.l2, gap + cfg.l2Ttl)
    && (forall v <- w.l1 :: TierSourced(ws, w.l1[v], gap + cfg.l2Ttl + cfg.l1Ttl))
    && (forall v <- w.fetched :: FetchedSourced(ws, w.fetched[v]))
  }

  lemma HeldGrows(ws: seq<World>, w: World, u: User, exp: Time, age: Time)
    requires Held(ws, u, exp, age)
    ensures Held(ws + [w], u, exp, age)
  {
    var i: nat :| HeldAt(ws, i, u, exp, age);
    assert HeldAt(ws + [w], i, u, exp, age);
  }

  lemma NamedGrows(ws: seq<World>, w: World, uid: UserId, key: string, exp: Time, age: Time)
    requires Named(ws, uid, key, exp, age)
    ensures Named(ws + [w], uid, key, exp, age)
  {
    var i: nat :| NamedAt(ws, i, uid, key, exp, age);
    assert NamedAt(ws + [w], i, uid, key, exp, age);
  }

  lemma TierGrows(ws: seq<World>, w: World, t: Tier, age: Time)
    requires TierSourced(ws, t, age)
    ensures TierSourced(ws + [w], t, age)
  {
    forall uid <- t.users
      ensures Held(ws + [w], t.users[uid].value, t.users[uid].exp, age)
    {
      HeldGrows(ws, w, t.users[uid].value, t.users[uid].exp, age);
    }
    forall key <- t.idents
      ensures Named(ws + [w], t.idents[key].value, key, t.idents[key].exp, age)
    {
      NamedGrows(ws, w, t.idents[key].value, key, t.idents[key].exp, age);
    }
  }

  lemma FetchedGrows(ws: seq<World>, w: World, fs: seq<Fetched>)
    requires FetchedSourced(ws, fs)
    ensures FetchedSourced(ws + [w], fs)
  {
    forall f <- fs
      ensures Held(ws + [w], f.user, f.at, 0.0)
    {
      HeldGrows(ws, w, f.user, f.at, 0.0);
    }
  }

  // Removing entries keeps a tier sourced.
  lemma SubTier(ws: seq<World>, t: Tier, t': Tier, age: Time)
    requires TierSourced(ws, t, age)
    requires forall k <- t'.users :: k in t.users && t'.users[k] == t.users[k]
    requires forall k <- t'.idents :: k in t.idents && t'.idents[k] == t.idents[k]
    ensures TierSourced(ws, t', age)
  {
  }

  lemma LongerAge(ws: seq<World>, u: User, exp: Time, age: Time, exp': Time, age': Time)
    requires Held(ws, u, exp, age) && exp' <= exp + (age' - age)
    ensures Held(ws, u, exp', age')
  {
    var i: nat :| HeldAt(ws, i, u, exp, age);
    assert HeldAt(ws, i, u, exp', age');
  }

  lemma LongerNamed(ws: seq<World>, uid: UserId, key: string, exp: Time, age: Time, exp': Time, age': Time)
    requires Named(ws, uid, key, exp, age) && exp' <= exp + (age' - age)
    ensures Named(ws, uid, key, exp', age')
  {
    var i: nat :| NamedAt(ws, i, uid, key, exp, age);
    assert NamedAt(ws, i, uid, key, exp', age');
  }

  lemma HeldNames(ws: seq<World>, u: User, key: string, exp: Time, age: Time)
    requires Held(ws, u, exp, age) && Names(u, key)
    ensures Named(ws, u.id, key, exp, age)
  {
    var i: nat :| HeldAt(ws, i, u, exp, age);
    assert NamedAt(ws, i, u.id, key, exp, age);
  }

  lemma PutSourced(ws: seq<World>, t: Tier, u: User, exp: Time, age: Time)
    requires TierSourced(ws, t, age) && Held(ws, u, exp, age)
    ensures TierSourced(ws, Put(t, u, exp), age)
  {
    var t' := Put(t, u, exp);
    forall key <- t'.idents
      ensures Named(ws, t'.idents[key].value, key, t'.idents[key].exp, age)
    {
      if key == Clean(u.username) || key == Clean(u.email) {
        HeldNames(ws, u, key, exp, age);
      }
    }
  }

  lemma PutIdentSourced(ws: seq<World>, t: Tier, key: string, e: Entry<UserId>, age: Time)
    requires TierSourced(ws, t, age) && Named(ws, e.value, key, e.exp, age)
    ensures TierSourced(ws, t.(idents := t.idents[key := e]), age)
  {
  }

  lemma TidySourced(ws: seq<World>, t: Tier, now: Time, age: Time)
    requires TierSourced(ws, t, age)
    ensures TierSourced(ws, Tidy(t, now), age)
  {
  }

  // A record from a database read not older than gap, put into L1 and into L2.
  lemma SetL1Sourced(cfg: Config, ws: seq<World>, l1: Tier, u: User, now: Time, gap: Time)
    requires cfg.l2Ttl >= 0.0 && TierSourced(ws, l1, gap + cfg.l2Ttl + cfg.l1Ttl) && Held(ws, u, now, gap)
    ensures TierSourced(ws, SetUserL1(cfg, l1, u, now), gap + cfg.l2Ttl + cfg.l1Ttl)
  {
    hide Put, Tidy, TierSourced, Held;
    var age := gap + cfg.l2Ttl + cfg.l1Ttl;
    LongerAge(ws, u, now, gap, now + cfg.l1Ttl, age);
    PutSourced(ws, l1, u, now + cfg.l1Ttl, age);
    TidySourced(ws, Put(l1, u, now + cfg.l1Ttl), now, age);
  }

  lemma SetL2Sourced(cfg: Config, ws: seq<World>, l2: Tier, u: User, now: Time, gap: Time)
    requires TierSourced(ws, l2, gap + cfg.l2Ttl) && Held(ws, u, now, gap)
    ensures TierSourced(ws, SetUserL2(cfg, l2, u, now), gap + cfg.l2Ttl)
  {
    hide Put, TierSourced, Held;
    LongerAge(ws, u, now, gap, now + cfg.l2Ttl, gap + cfg.l2Ttl);
    PutSourced(ws, l2, u, now + cfg.l2Ttl, gap + cfg.l2Ttl);
  }

  // The database held u in some world of the run less than `age` ago.
  ghost predicate HeldWithinAt(ws: seq<World>, i: nat, u: User, now: Time, age: Time) {
    i < |ws| && u.id in ws[i].db && ws[i].db[u.id] == u && now < ws[i].now + age
  }

  ghost predicate HeldWithin(ws: seq<World>, u: User, now: Time, age: Time) {
    exists i: nat :: HeldWithinAt(ws, i, u, now, age)
  }

  // A row of uid bore the identifier less than `age` ago.
  ghost predicate NamedWithinAt(ws: seq<World>, i: nat, uid: UserId, key: string, now: Time, age: Time) {
    i < |ws| && uid in ws[i].db && Names(ws[i].db[uid], key) && now < ws[i].now + age
  }

  ghost predicate NamedWithin(ws: seq<World>, uid: UserId, key: string, now: Time, age: Time) {
    exists i: nat :: NamedWithinAt(ws, i, uid, key, now, age)
  }

  lemma LiveHeld(ws: seq<World>, u: User, exp: Time, age: Time, now: Time)
    requires Held(ws, u, exp, age) && now < exp
    ensures HeldWithin(ws, u, now, age)
  {
    var i: nat :| HeldAt(ws, i, u, exp, age);
    assert HeldWithinAt(ws, i, u, now, age);
  }

  lemma LiveNamed(ws: seq<World>, uid: UserId, key: string, exp: Time, age: Time, now: Time)
    requires Named(ws, uid, key, exp, age) && now < exp
    ensures NamedWithin(ws, uid, key, now, age)
  {
    var i: nat :| NamedAt(ws, i, uid, key, exp, age);
    assert NamedWithinAt(ws, i, uid, key, now, age);
  }

  // A lookup leaves L1 sourced, and what it finds is recent.
  lemma LookupSourced(cfg: Config, ws: seq<World>, l1: Tier, l2: Tier, uid: UserId, now: Time, age2: Time)
    requires TierSourced(ws, l2, age2) && TierSourced(ws, l1, age2 + cfg.l1Ttl) && cfg.l1Ttl >= 0.0
    ensures TierSourced(ws, GetUser(cfg, l1, Some(l2), uid, now).l1, age2 + cfg.l1Ttl)
    ensures var found := GetUser(cfg, l1, Some(l2), uid, now).found;
      found.Some? ==> found.value.id == uid && HeldWithin(ws, found.value, now, age2 + cfg.l1Ttl)
  {
    hide Held, Named, HeldWithin;
    var age1 := age2 + cfg.l1Ttl;
    if cfg.enabled {
      if LiveAt(l1.users, uid, now) {
        LiveHeld(ws, l1.users[uid].value, l1.users[uid].exp, age1, now);
      } else {
        SubTier(ws, l1, l1.(users := l1.users - {uid}), age1);
        if LiveAt(l2.users, uid, now) {
          var e := l2.users[uid];
          LongerAge(ws, e.value, e.exp, age2, now + cfg.l1Ttl, age1);
          LongerAge(ws, e.value, e.exp, age2, e.exp, age1);
          LiveHeld(ws, e.value, e.exp, age1, now);
        }
      }
    }
  }

  lemma L2IdentifierTier(cfg: Config, ws: seq<World>, l1: Tier, l2: Tier, key: string, now: Time, age2: Time)
    requires TierSourced(ws, l2, age2) && TierSourced(ws, l1, age2 + cfg.l1Ttl) && cfg.l1Ttl >= 0.0
    ensures TierSourced(ws, GetByL2Identifier(cfg, l1, Some(l2), key, now).l1, age2 + cfg.l1Ttl)
  {
    hide Held, Named;
    if LiveAt(l2.idents, key, now) {
      var e, age1 := l2.idents[key], age2 + cfg.l1Ttl;
      LookupSourced(cfg, ws, l1, l2, e.value, now, age2);
      LongerNamed(ws, e.value, key, e.exp, age2, now + cfg.l1Ttl, age1);
      PutIdentSourced(ws, GetUser(cfg, l1, Some(l2), e.value, now).l1, key, Entry(e.value, now + cfg.l1Ttl), age1);
    }
  }

  lemma L2IdentifierFound(cfg: Config, ws: seq<World>, l1: Tier, l2: Tier, key: string, now: Time, age2: Time)
    requires TierSourced(ws, l2, age2) && TierSourced(ws, l1, age2 + cfg.l1Ttl) && cfg.l1Ttl >= 0.0
    ensures var found := GetByL2Identifier(cfg, l1, Some(l2), key, now).found;
      found.Some? ==>
        && HeldWithin(ws, found.value, now, age2 + cfg.l1Ttl)
        && NamedWithin(ws, found.value.id, key, now, age2 + cfg.l1Ttl)
  {
    hide Held, Named, HeldWithin, NamedWithin;
    if LiveAt(l2.idents, key, now) {
      var e, age1 := l2.idents[key], age2 + cfg.l1Ttl;
      LookupSourced(cfg, ws, l1, l2, e.value, now, age2);
      LongerNamed(ws, e.value, key, e.exp, age2, e.exp, age1);
      LiveNamed(ws, e.value, key, e.exp, age1, now);
    }
  }

  lemma IdentifierSourced(cfg: Config, ws: seq<World>, l1: Tier, l2: Tier, identifier: string, now: Time, age2: Time)
    requires TierSourced(ws, l2, age2) && TierSourced(ws, l1, age2 + cfg.l1Ttl) && cfg.l1Ttl >= 0.0
    ensures TierSourced(ws, GetUserByIdentifier(cfg, l1, Some(l2), identifier, now).l1, age2 + cfg.l1Ttl)
    ensures var found := GetUserByIdentifier(cfg, l1, Some(l2), identifier, now).found;
      found.Some? ==>
        && HeldWithin(ws, found.value, now, age2 + cfg.l1Ttl)
        && NamedWithin(ws, found.value.id, Clean(identifier), now, age2 + cfg.l1Ttl)
  {
    hide Held, Named, HeldWithin, NamedWithin, GetByL2Identifier;
    if cfg.enabled && identifier != "" {
      var age1, key := age2 + cfg.l1Ttl, Clean(identifier);
      if LiveAt(l1.idents, key, now) {
        var e := l1.idents[key];
        LookupSourced(cfg, ws, l1, l2, e.value, now, age2);
        LiveNamed(ws, e.value, key, e.exp, age1, now);
        var got := GetUser(cfg, l1, Some(l2), e.value, now);
        var rest := got.l1.(idents := got.l1.idents - {key});
        SubTier(ws, got.l1, rest, age1);
        L2IdentifierTier(cfg, ws, rest, l2, key, now, age2);
        L2IdentifierFound(cfg, ws, rest, l2, key, now, age2);
      } else {
        var rest := l1.(idents := l1.idents - {key});
        SubTier(ws, l1, rest, age1);
        L2IdentifierTier(cfg, ws, rest, l2, key, now, age2);
        L2IdentifierFound(cfg, ws, rest, l2, key, now, age2);
      }
    }
  }

  // ---------- one step ----------

  // Everything cached or fetched before the step stays sourced when the run grows by one world.
  lemma AllGrow(cfg: Config, ws: seq<World>, w': World, gap: Time)
    requires ws != [] && Sourced(cfg, ws, gap)
    ensures var w := ws[|ws| - 1];
      && TierSourced(ws + [w'], w.l2, gap + cfg.l2Ttl)
      && (forall v <- w.l1 :: TierSourced(ws + [w'], w.l1[v], gap + cfg.l2Ttl + cfg.l1Ttl))
      && (forall v <- w.fetched :: FetchedSourced(ws + [w'], w.fetched[v]))
  {
    var w := ws[|ws| - 1];
    TierGrows(ws, w', w.l2, gap + cfg.l2Ttl);
    forall v <- w.l1
      ensures TierSourced(ws + [w'], w.l1[v], gap + cfg.l2Ttl + cfg.l1Ttl)
    {
      TierGrows(ws, w', w.l1[v], gap + cfg.l2Ttl + cfg.l1Ttl);
    }
    forall v <- w.fetched
      ensures FetchedSourced(ws + [w'], w.fetched[v])
    {
      FetchedGrows(ws, w', w.fetched[v]);
    }
  }

  ghost predicate TiersSourced(cfg: Config, ws: seq<World>, w: World, gap: Time) {
    && TierSourced(ws, w.l2, gap + cfg.l2Ttl)
    && forall v <- w.l1 :: TierSourced(ws, w.l1[v], gap + cfg.l2Ttl + cfg.l1Ttl)
  }

  ghost predicate AllFetchedSourced(ws: seq<World>, w: World) {
    forall v <- w.fetched :: FetchedSourced(ws, w.fetched[v])
  }

  lemma ReplaceTiers(cfg: Config, ws: seq<World>, w: World, w': World, v: Worker, gap: Time)
    requires TiersSourced(cfg, ws, w, gap) && v in w.l1 && v in w'.l1 && w'.l1 == w.l1[v := w'.l1[v]]
    requires TierSourced(ws, w'.l2, gap + cfg.l2Ttl) && TierSourced(ws, w'.l1[v], gap + cfg.l2Ttl + cfg.l1Ttl)
    ensures TiersSourced(cfg, ws, w', gap)
  {
  }

  lemma DropTiers(cfg: Config, ws: seq<World>, w: World, v: Worker, uid: UserId, gap: Time)
    requires TiersSourced(cfg, ws, w, gap) && v in w.l1
    ensures TiersSourced(cfg, ws, DropIn(w, v, uid), gap)
  {
  }

  lemma SetTiers(cfg: Config, ws: seq<World>, w: World, v: Worker, u: User, at: Time, gap: Time)
    requires TiersSourced(cfg, ws, w, gap) && v in w.l1 && cfg.l1Ttl >= 0.0 && cfg.l2Ttl >= 0.0
    requires Held(ws, u, at, 0.0) && w.now <= at + gap
    ensures TiersSourced(cfg, ws, SetIn(cfg, w, v, u), gap)
  {
    LongerAge(ws, u, at, 0.0, w.now, gap);
    SetL1Sourced(cfg, ws, w.l1[v], u, w.now, gap);
    SetL2Sourced(cfg, ws, w.l2, u, w.now, gap);
    ReplaceTiers(cfg, ws, w, SetIn(cfg, w, v, u), v, gap);
  }

  lemma SameTiers(cfg: Config, ws: seq<World>, w: World, w': World, gap: Time)
    requires TiersSourced(cfg, ws, w, gap) && w'.l1 == w.l1 && w'.l2 == w.l2
    ensures TiersSourced(cfg, ws, w', gap)
  {
  }

  lemma DropStepSourced(cfg: Config, ws: seq<World>, w: World, a: Action, gap: Time)
    requires (a.Clear? || a.Deliver?) && WellFormed(w) && Enabled(w, a) && TiersSourced(cfg, ws, w, gap)
    ensures TiersSourced(cfg, ws, Apply(cfg, w, a), gap)
  {
    hide TierSourced;
    var v := if a.Clear? then w.writes[a.writer].worker else a.worker;
    var uid := if a.Clear? then w.writes[a.writer].uid else w.queues[v][0];
    if v in w.l1 {
      DropTiers(cfg, ws, w, v, uid, gap);
      SameTiers(cfg, ws, DropIn(w, v, uid), Apply(cfg, w, a), gap);
    }
  }

  lemma SetStepSourced(cfg: Config, ws: seq<World>, w: World, a: Action, gap: Time)
    requires a.FetchAndSet? || a.SetFetched?
    requires gap >= 0.0 && cfg.l1Ttl >= 0.0 && cfg.l2Ttl >= 0.0
    requires WellFormed(w) && Enabled(w, a) && Prompt(w, a, gap)
    requires TiersSourced(cfg, ws, w, gap) && AllFetchedSourced(ws, w)
    requires forall uid <- w.db :: Held(ws, w.db[uid], w.now, 0.0)
    ensures TiersSourced(cfg, ws, Apply(cfg, w, a), gap)
  {
    hide TierSourced, Put, Tidy;
    if a.FetchAndSet? {
      SetTiers(cfg, ws, w, a.worker, w.db[a.uid], w.now, gap);
    } else {
      var f := w.fetched[a.worker][0];
      assert f in w.fetched[a.worker];
      SetTiers(cfg, ws, w, a.worker, f.user, f.at, gap);
      SameTiers(cfg, ws, SetIn(cfg, w, a.worker, f.user), Apply(cfg, w, a), gap);
    }
  }

  lemma StepTiersSourced(cfg: Config, ws: seq<World>, w: World, a: Action, gap: Time)
    requires gap >= 0.0 && cfg.l1Ttl >= 0.0 && cfg.l2Ttl >= 0.0
    requires WellFormed(w) && Enabled(w, a) && Prompt(w, a, gap)
    requires TiersSourced(cfg, ws, w, gap) && AllFetchedSourced(ws, w)
    requires forall uid <- w.db :: Held(ws, w.db[uid], w.now, 0.0)
    ensures TiersSourced(cfg, ws, Apply(cfg, w, a), gap)
  {
    hide TierSourced, Put, Tidy;
    var w' := Apply(cfg, w, a);
    match a {
      case Clear(_) => DropStepSourced(cfg, ws, w, a, gap);
      case Deliver(_) => DropStepSourced(cfg, ws, w, a, gap);
      case FetchAndSet(_, _) => SetStepSourced(cfg, ws, w, a, gap);
      case SetFetched(_) => SetStepSourced(cfg, ws, w, a, gap);
      case Read(v, uid) =>
        LookupSourced(cfg, ws, w.l1[v], w.l2, uid, w.now, gap + cfg.l2Ttl);
        ReplaceTiers(cfg, ws, w, w', v, gap);
      case ReadByIdentifier(v, identifier) =>
        IdentifierSourced(cfg, ws, w.l1[v], w.l2, identifier, w.now, gap + cfg.l2Ttl);
        ReplaceTiers(cfg, ws, w, w', v, gap);
      case _ =>
        SameTiers(cfg, ws, w, w', gap);
    }
  }

  lemma StepFetchedSourced(cfg: Config, ws: seq<World>, w: World, a: Action)
    requires WellFormed(w) && Enabled(w, a) && AllFetchedSourced(ws, w)
    requires forall uid <- w.db :: Held(ws, w.db[uid], w.now, 0.0)
    ensures AllFetchedSourced(ws, Apply(cfg, w, a))
  {
    var w' := Apply(cfg, w, a);
    forall v <- w'.fetched, f <- w'.fetched[v]
      ensures Held(ws, f.user, f.at, 0.0)
    {
      assert f in w.fetched[v] || (a.Fetch? && f == Fetched(w.db[a.uid], w.now));
    }
  }

  lemma StepSourced(cfg: Config, ws: seq<World>, a: Action, gap: Time)
    requires ws != [] && Sourced(cfg, ws, gap) && gap >= 0.0 && cfg.l1Ttl >= 0.0 && cfg.l2Ttl >= 0.0
    requires Enabled(ws[|ws| - 1], a) && Prompt(ws[|ws| - 1], a, gap)
    ensures Sourced(cfg, ws + [Apply(cfg, ws[|ws| - 1], a)], gap)
  {
    var k := |ws| - 1;
    var w := ws[k];
    var w' := Apply(cfg, w, a);
    var ws' := ws + [w'];
    ApplyWellFormed(cfg, w, a);
    AllGrow(cfg, ws, w', gap);
    forall uid <- w.db
      ensures Held(ws', w.db[uid], w.now, 0.0)
    {
      assert HeldAt(ws', k, w.db[uid], w.now, 0.0);
    }
    StepTiersSourced(cfg, ws', w, a, gap);
    StepFetchedSourced(cfg, ws', w, a);
    assert ws'[|ws'| - 1] == w';
  }

  lemma {:induction false} RunSourced(cfg: Config, ws: seq<World>, acts: seq<Action>, gap: Time)
    requires IsPromptRun(cfg, ws, acts, gap) && gap >= 0.0 && cfg.l1Ttl >= 0.0 && cfg.l2Ttl >= 0.0
    ensures Sourced(cfg, ws, gap)
    decreases |acts|
  {
    if acts == [] {
      assert Initial(ws[0]) && ws[|ws| - 1] == ws[0];
    } else {
      var n := |acts| - 1;
      RunPrefix(cfg, ws, acts);
      var ws', acts' := ws[..|acts|], acts[..n];
      assert forall i :: 0 <= i < n ==> Prompt(ws'[i], acts'[i], gap) by {
        assert forall i :: 0 <= i < n ==> Prompt(ws[i], acts[i], gap);
      }
      RunSourced(cfg, ws', acts', gap);
      assert ws'[|ws'| - 1] == ws[n] && Prompt(ws[n], acts[n], gap);
      StepSourced(cfg, ws', acts[n], gap);
      assert ws == ws' + [Apply(cfg, ws[n], acts[n])];
    }
  }

  // ---------- the results ----------

  // Bounded staleness: whatever messages are lost, a profile the cache returns was the row of that
  // user less than gap + L2 TTL + L1 TTL ago.
  lemma ProfileAgeIsBounded(cfg: Config, ws: seq<World>, acts: seq<Action>, gap: Time, v: Worker, uid: UserId)
    requires IsPromptRun(cfg, ws, acts, gap) && gap >= 0.0 && cfg.l1Ttl >= 0.0 && cfg.l2Ttl >= 0.0
    requires v in ws[|acts|].l1
    ensures var w := ws[|acts|];
      var found := GetUser(cfg, w.l1[v], Some(w.l2), uid, w.now).found;
      found.Some? ==> found.value.id == uid && HeldWithin(ws, found.value, w.now, gap + cfg.l2Ttl + cfg.l1Ttl)
  {
    RunSourced(cfg, ws, acts, gap);
    var w := ws[|acts|];
    LookupSourced(cfg, ws, w.l1[v], w.l2, uid, w.now, gap + cfg.l2Ttl);
  }

  // The same bound holds for both halves of a lookup by identifier: the association and the profile.
  lemma IdentifierAgeIsBounded(cfg: Config, ws: seq<World>, acts: seq<Action>, gap: Time, v: Worker, identifier: string)
    requires IsPromptRun(cfg, ws, acts, gap) && gap >= 0.0 && cfg.l1Ttl >= 0.0 && cfg.l2Ttl >= 0.0
    requires v in ws[|acts|].l1
    ensures var w := ws[|acts|];
      var found := GetUserByIdentifier(cfg, w.l1[v], Some(w.l2), identifier, w.now).found;
      found.Some? ==>
        && HeldWithin(ws, found.value, w.now, gap + cfg.l2Ttl + cfg.l1Ttl)
        && NamedWithin(ws, found.value.id, Clean(identifier), w.now, gap + cfg.l2Ttl + cfg.l1Ttl)
  {
    RunSourced(cfg, ws, acts, gap);
    var w := ws[|acts|];
    IdentifierSourced(cfg, ws, w.l1[v], w.l2, identifier, w.now, gap + cfg.l2Ttl);
  }

  lemma PromptExtends(cfg: Config, ws: seq<World>, acts: seq<Action>, a: Action)
    requires IsPromptRun(cfg, ws, acts, 0.0) && WellFormed(ws[|acts|]) && Enabled(ws[|acts|], a) && !a.SetFetched?
    ensures IsPromptRun(cfg, ws + [Apply(cfg, ws[|acts|], a)], acts + [a], 0.0)
  {
    RunExtends(cfg, ws, acts, a);
  }

  // Worker 1 caches a row.
  lemma CacheRow(before: User) returns (ws: seq<World>, acts: seq<Action>)
    ensures IsPromptRun(DEFAULT_CONFIG, ws, acts, 0.0)
    ensures var w := ws[|acts|];
      && WellFormed(w) && w.now == 0.0 && w.l1.Keys == {0, 1} && w.l1[0] == EMPTY_TIER && w.writes == map[]
      && before.id in w.l2.users && w.l2.users[before.id] == Entry(before, 60.0) && w.db == map[before.id := before]
    ensures forall i :: 0 <= i < |ws| ==> ws[i].now == 0.0
  {
    var uid, cfg := before.id, DEFAULT_CONFIG;
    var w0 := World(map[uid := before], {uid}, map[0 := EMPTY_TIER, 1 := EMPTY_TIER], EMPTY_TIER, map[],
                    map[0 := [], 1 := []], map[0 := [], 1 := []], 0.0);
    ws, acts := [w0], [];
    PromptExtends(cfg, ws, acts, FetchAndSet(1, uid));
    ws, acts := ws + [Apply(cfg, w0, FetchAndSet(1, uid))], acts + [FetchAndSet(1, uid)];
  }

  // Worker 1 then overwrites the row; its message is never sent.
  lemma OverwriteAfterCaching(before: User, after: User) returns (ws: seq<World>, acts: seq<Action>)
    requires before.id == after.id
    ensures IsPromptRun(DEFAULT_CONFIG, ws, acts, 0.0)
    ensures var w := ws[|acts|];
      && WellFormed(w) && w.now == 0.0 && w.l1.Keys == {0, 1} && w.l1[0] == EMPTY_TIER
      && before.id in w.l2.users && w.l2.users[before.id] == Entry(before, 60.0) && w.db == map[before.id := after]
    ensures forall i :: 0 <= i < |ws| ==> ws[i].now == 0.0
  {
    ws, acts := CacheRow(before);
    var w, commit := ws[|acts|], Commit(0, 1, before.id, Some(after));
    PromptExtends(DEFAULT_CONFIG, ws, acts, commit);
    ws, acts := ws + [Apply(DEFAULT_CONFIG, w, commit)], acts + [commit];
  }

  // The bound is sharp with the default settings: for every delay short of 90 s some run returns a
  // profile that the database has not held for that long.
  lemma NinetySecondsIsSharp(before: User, after: User, delay: Time) returns (ws: seq<World>, acts: seq<Action>)
    requires before.id == after.id && before != after && 30.0 <= delay < 90.0
    ensures IsPromptRun(DEFAULT_CONFIG, ws, acts, 0.0)
    ensures var w := ws[|acts|];
      && w.now == delay && 0 in w.l1
      && GetUser(DEFAULT_CONFIG, w.l1[0], Some(w.l2), before.id, w.now).found == Some(before)
      && forall i :: 0 <= i < |ws| && before.id in ws[i].db && ws[i].db[before.id] == before ==> ws[i].now == 0.0
  {
    var uid, cfg := before.id, DEFAULT_CONFIG;
    // Half-way between delay - 30 and 60: the L2 key is still live, and the L1 copy outlives `delay`.
    var hit := (delay + 30.0) / 2.0;
    ws, acts := OverwriteAfterCaching(before, after);
    var w2 := ws[|acts|];
    PromptExtends(cfg, ws, acts, Tick(hit));
    var w3 := Apply(cfg, w2, Tick(hit));
    ws, acts := ws + [w3], acts + [Tick(hit)];
    PromptExtends(cfg, ws, acts, Read(0, uid));
    var w4 := Apply(cfg, w3, Read(0, uid));
    ws, acts := ws + [w4], acts + [Read(0, uid)];
    assert w4.l1[0].users[uid] == Entry(before, hit + 30.0);
    PromptExtends(cfg, ws, acts, Tick(delay));
    ws, acts := ws + [Apply(cfg, w4, Tick(delay))], acts + [Tick(delay)];
  }
}
