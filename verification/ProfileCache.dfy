// The two-tier profile cache of one worker (UserProfileCache in user_repository.py).
module ProfileCache {
  import opened Prelude
  import opened Text

  // A parsed UUID.
  type UserId = nat

  datatype User = User(
    id: UserId,
    username: string,
    email: string,
    hashedPassword: string,
    isActive: bool,
    roles: seq<string>,
    metadata: map<string, string>)

  datatype Config = Config(enabled: bool, l1Ttl: Time, l2Ttl: Time)

  const DEFAULT_CONFIG := Config(true, 30.0, 60.0)

  const CLEANUP_THRESHOLD := 2000

  datatype Entry<+T> = Entry(value: T, exp: Time)

  // Either tier: records by user id, user ids by identifier (cleaned user name or address).
  datatype Tier = Tier(users: map<UserId, Entry<User>>, idents: map<string, Entry<UserId>>)

  const EMPTY_TIER := Tier(map[], map[])

  datatype Lookup = Lookup(found: Option<User>, l1: Tier)

  // A cache invalidation message on the pub/sub channel.
  datatype Message = Message(userId: Option<UserId>, identifier: Option<string>)

  predicate LiveAt<K, V>(m: map<K, Entry<V>>, k: K, now: Time) {
    k in m && now < m[k].exp
  }

  function GetUser(cfg: Config, l1: Tier, l2: Option<Tier>, uid: UserId, now: Time): Lookup {
    if !cfg.enabled then Lookup(None, l1)
    else if LiveAt(l1.users, uid, now) then Lookup(Some(l1.users[uid].value), l1)
    else
      var l1' := l1.(users := l1.users - {uid});
      if l2.Some? && LiveAt(l2.value.users, uid, now) then
        var u := l2.value.users[uid].value;
        Lookup(Some(u), l1'.(users := l1'.users[uid := Entry(u, now + cfg.l1Ttl)]))
      else Lookup(None, l1')
  }

  // The L2 half of an identifier lookup.
  function GetByL2Identifier(cfg: Config, l1: Tier, l2: Option<Tier>, key: string, now: Time): Lookup {
    if l2.Some? && LiveAt(l2.value.idents, key, now) then
      var uid := l2.value.idents[key].value;
      var got := GetUser(cfg, l1, l2, uid, now);
      if got.found.Some? then
        Lookup(got.found, got.l1.(idents := got.l1.idents[key := Entry(uid, now + cfg.l1Ttl)]))
      else got
    else Lookup(None, l1)
  }

  function GetUserByIdentifier(cfg: Config, l1: Tier, l2: Option<Tier>, identifier: string, now: Time): Lookup {
    if !cfg.enabled || identifier == "" then Lookup(None, l1)
    else
      var key := Clean(identifier);
      if LiveAt(l1.idents, key, now) then
        var got := GetUser(cfg, l1, l2, l1.idents[key].value, now);
        if got.found.Some? then got
        else GetByL2Identifier(cfg, got.l1.(idents := got.l1.idents - {key}), l2, key, now)
      else GetByL2Identifier(cfg, l1.(idents := l1.idents - {key}), l2, key, now)
  }

  function PutIdent(m: map<string, Entry<UserId>>, key: string, e: Entry<UserId>): map<string, Entry<UserId>> {
    if key == "" then m else m[key := e]
  }

  // Both tiers record a profile the same way, each with its own time to live.
  function Put(t: Tier, u: User, exp: Time): Tier {
    Tier(t.users[u.id := Entry(u, exp)],
         PutIdent(PutIdent(t.idents, Clean(u.username), Entry(u.id, exp)), Clean(u.email), Entry(u.id, exp)))
  }

  predicate BearsKey(u: User, key: string) {
    key != "" && (key == Clean(u.username) || key == Clean(u.email))
  }

  function DropExpired(t: Tier, now: Time): Tier {
    Tier(map k | k in t.users && now < t.users[k].exp :: t.users[k],
         map k | k in t.idents && now < t.idents[k].exp :: t.idents[k])
  }

  function Tidy(t: Tier, now: Time): Tier {
    if |t.users| > CLEANUP_THRESHOLD then DropExpired(t, now) else t
  }

  function SetUserL1(cfg: Config, l1: Tier, u: User, now: Time): Tier {
    if !cfg.enabled then l1
    else Tidy(Put(l1, u, now + cfg.l1Ttl), now)
  }

  function SetUserL2(cfg: Config, l2: Tier, u: User, now: Time): Tier {
    if !cfg.enabled then l2 else Put(l2, u, now + cfg.l2Ttl)
  }

  function DropUserL1(l1: Tier, uid: UserId): Tier {
    Tier(l1.users - {uid}, map k | k in l1.idents && l1.idents[k].value != uid :: l1.idents[k])
  }

  function InvalidateL1(l1: Tier, userId: Option<UserId>, identifier: Option<string>): Tier {
    var l1' := if userId.Some? then DropUserL1(l1, userId.value) else l1;
    if identifier.Some? then l1'.(idents := l1'.idents - {Clean(identifier.value)}) else l1'
  }

  // Redis deletes the named keys only: identifier keys of the user are left to expire.
  function InvalidateL2(l2: Tier, userId: Option<UserId>, identifier: Option<string>): Tier {
    Tier(if userId.Some? then l2.users - {userId.value} else l2.users,
         if identifier.Some? then l2.idents - {Clean(identifier.value)} else l2.idents)
  }

  // After set_user the worker finds the profile by id until the L1 time to live is over, whatever
  // Redis holds, and also by either identifier.
  lemma SetThenGet(cfg: Config, l1: Tier, l2: Option<Tier>, u: User, at: Time, now: Time)
    requires cfg.enabled && at <= now < at + cfg.l1Ttl
    ensures GetUser(cfg, SetUserL1(cfg, l1, u, at), l2, u.id, now).found == Some(u)
    ensures forall identifier | identifier != "" && Clean(identifier) != "" &&
                (Clean(identifier) == Clean(u.username) || Clean(identifier) == Clean(u.email)) ::
      GetUserByIdentifier(cfg, SetUserL1(cfg, l1, u, at), l2, identifier, now).found == Some(u)
  {
    var t := SetUserL1(cfg, l1, u, at);
    RecordedLive(cfg, l1, u, at, now);
    hide SetUserL1;
    assert GetUser(cfg, t, l2, u.id, now).found == Some(u);
  }

  // And any other worker with nothing of its own finds it in Redis, by id and by either identifier,
  // until the L2 time to live is over.
  lemma SetThenOthersGet(cfg: Config, l2: Tier, u: User, at: Time, now: Time)
    requires cfg.enabled && at <= now < at + cfg.l2Ttl
    ensures var shared := Some(SetUserL2(cfg, l2, u, at));
      && GetUser(cfg, EMPTY_TIER, shared, u.id, now).found == Some(u)
      && forall identifier | identifier != "" && BearsKey(u, Clean(identifier)) ::
           GetUserByIdentifier(cfg, EMPTY_TIER, shared, identifier, now).found == Some(u)
  {
    hide Clean;
  }

  lemma RecordedLive(cfg: Config, l1: Tier, u: User, at: Time, now: Time)
    requires cfg.enabled && at <= now < at + cfg.l1Ttl
    ensures var t := SetUserL1(cfg, l1, u, at);
      && LiveAt(t.users, u.id, now) && t.users[u.id].value == u
      && forall key | BearsKey(u, key) ::
           LiveAt(t.idents, key, now) && t.idents[key].value == u.id
  {
    hide Clean;
  }

  // After an invalidation by id neither tier returns the profile, by id or, from this worker's own
  // index, by any identifier that led to it.
  lemma InvalidateThenMiss(cfg: Config, l1: Tier, l2: Tier, uid: UserId, now: Time)
    ensures var l1', l2' := InvalidateL1(l1, Some(uid), None), InvalidateL2(l2, Some(uid), None);
      && GetUser(cfg, l1', Some(l2'), uid, now).found == None
      && GetUser(cfg, l1', None, uid, now).found == None
      && forall key :: key in l1.idents && l1.idents[key].value == uid ==> key !in l1'.idents
  {
  }

  // What Redis shares: when L1 has neither, a live identifier key that leads to a live record answers
  // the lookup, and L1 then holds both for its own time to live.
  lemma SharedTierAnswers(cfg: Config, l1: Tier, l2: Tier, identifier: string, now: Time)
    requires cfg.enabled && identifier != "" && cfg.l1Ttl > 0.0
    requires var key := Clean(identifier);
      && !LiveAt(l1.idents, key, now) && LiveAt(l2.idents, key, now)
      && !LiveAt(l1.users, l2.idents[key].value, now) && LiveAt(l2.users, l2.idents[key].value, now)
    ensures var key, got := Clean(identifier), GetUserByIdentifier(cfg, l1, Some(l2), identifier, now);
      var uid := l2.idents[key].value;
      && got.found == Some(l2.users[uid].value)
      && uid in got.l1.users && got.l1.users[uid] == Entry(l2.users[uid].value, now + cfg.l1Ttl)
      && key in got.l1.idents && got.l1.idents[key] == Entry(uid, now + cfg.l1Ttl)
  {
    hide Clean;
  }

  // The Redis keys shared by all workers.
  class RedisCache {
    var keys: Tier

    constructor ()
      ensures keys == EMPTY_TIER
    {
      keys := EMPTY_TIER;
    }
  }

  class UserProfileCache {
    const cfg: Config
    const redis: RedisCache?
    var l1: Tier

    constructor (cfg: Config, redis: RedisCache?)
      ensures this.cfg == cfg && this.redis == redis && l1 == EMPTY_TIER
    {
      this.cfg, this.redis := cfg, redis;
      l1 := EMPTY_TIER;
    }

    ghost function L2(): Option<Tier>
      reads this, redis
    {
      if redis == null then None else Some(redis.keys)
    }

    method Get(uid: UserId, now: Time) returns (r: Option<User>)
      modifies this
      ensures Lookup(r, l1) == GetUser(cfg, old(l1), L2(), uid, now)
    {
      if !cfg.enabled {
        return None;
      }
      if uid in l1.users {
        if now < l1.users[uid].exp {
          return Some(l1.users[uid].value);
        }
      }
      l1 := l1.(users := l1.users - {uid});
      if redis != null && uid in redis.keys.users && now < redis.keys.users[uid].exp {
        var data := redis.keys.users[uid].value;
        l1 := l1.(users := l1.users[uid := Entry(data, now + cfg.l1Ttl)]);
        return Some(data);
      }
      return None;
    }

    method GetByIdentifier(identifier: string, now: Time) returns (r: Option<User>)
      modifies this
      ensures Lookup(r, l1) == GetUserByIdentifier(cfg, old(l1), L2(), identifier, now)
    {
      if !cfg.enabled || identifier == "" {
        return None;
      }
      var key := Clean(identifier);
      if key in l1.idents {
        if now < l1.idents[key].exp {
          r := Get(l1.idents[key].value, now);
          if r.Some? {
            return;
          }
        }
      }
      l1 := l1.(idents := l1.idents - {key});
      if redis != null && key in redis.keys.idents && now < redis.keys.idents[key].exp {
        var uid := redis.keys.idents[key].value;
        r := Get(uid, now);
        if r.Some? {
          l1 := l1.(idents := l1.idents[key := Entry(uid, now + cfg.l1Ttl)]);
          return;
        }
      }
      return None;
    }

    method Set(u: User, now: Time)
      modifies this, redis
      ensures l1 == SetUserL1(cfg, old(l1), u, now)
      ensures redis != null ==> redis.keys == SetUserL2(cfg, old(redis.keys), u, now)
    {
      if !cfg.enabled {
        return;
      }
      l1 := Record(l1, u, now + cfg.l1Ttl);
      l1 := CleanUp(l1, now);
      if redis != null {
        redis.keys := Record(redis.keys, u, now + cfg.l2Ttl);
      }
    }

    // The record replaces the user's; the entry of each of its non-empty identifiers now leads to
    // it, also when it led to another user; every other entry stays.
    static method Record(t: Tier, u: User, exp: Time) returns (t': Tier)
      ensures t' == Put(t, u, exp)
      ensures t'.users.Keys == t.users.Keys + {u.id} && t'.users[u.id] == Entry(u, exp)
      ensures forall k <- t.users :: k != u.id ==> t'.users[k] == t.users[k]
      ensures forall k :: k in t'.idents <==> k in t.idents || BearsKey(u, k)
      ensures forall k <- t'.idents :: t'.idents[k] == if BearsKey(u, k) then Entry(u.id, exp) else t.idents[k]
    {
      var users, idents := t.users[u.id := Entry(u, exp)], t.idents;
      var username, email := Clean(u.username), Clean(u.email);
      if username != "" {
        idents := idents[username := Entry(u.id, exp)];
      }
      if email != "" {
        idents := idents[email := Entry(u.id, exp)];
      }
      return Tier(users, idents);
    }

    // Periodic cleanup of expired entries: no lookup can tell the difference.
    static method CleanUp(t: Tier, now: Time) returns (t': Tier)
      ensures t' == Tidy(t, now)
      ensures |t.users| <= 2000 ==> t' == t
      ensures forall k :: LiveAt(t'.users, k, now) <==> LiveAt(t.users, k, now)
      ensures forall k :: LiveAt(t'.idents, k, now) <==> LiveAt(t.idents, k, now)
      ensures |t.users| > 2000 ==>
        (forall k <- t'.users :: now < t'.users[k].exp) && (forall k <- t'.idents :: now < t'.idents[k].exp)
      ensures forall k <- t'.users :: k in t.users && t'.users[k] == t.users[k]
      ensures forall k <- t'.idents :: k in t.idents && t'.idents[k] == t.idents[k]
    {
      t' := t;
      if |t.users| > CLEANUP_THRESHOLD {
        t' := Tier(map k | k in t.users && now < t.users[k].exp :: t.users[k],
                   map k | k in t.idents && now < t.idents[k].exp :: t.idents[k]);
      }
    }

    method Invalidate(userId: Option<UserId>, identifier: Option<string>, publish: bool)
      returns (published: Option<Message>)
      modifies this, redis
      ensures l1 == InvalidateL1(old(l1), userId, identifier)
      ensures redis != null ==> redis.keys == InvalidateL2(old(redis.keys), userId, identifier)
      ensures published == if redis != null && publish then
          Some(Message(userId, if identifier.Some? then Some(Clean(identifier.value)) else None))
        else None
    {
      if userId.Some? {
        var uid := userId.value;
        l1 := Tier(l1.users - {uid}, map k | k in l1.idents && l1.idents[k].value != uid :: l1.idents[k]);
      }
      if identifier.Some? {
        l1 := l1.(idents := l1.idents - {Clean(identifier.value)});
      }
      published := None;
      if redis != null {
        if userId.Some? {
          redis.keys := redis.keys.(users := redis.keys.users - {userId.value});
        }
        if identifier.Some? {
          redis.keys := redis.keys.(idents := redis.keys.idents - {Clean(identifier.value)});
        }
        if publish {
          published := Some(Message(userId, if identifier.Some? then Some(Clean(identifier.value)) else None));
        }
      }
    }
  }
}
