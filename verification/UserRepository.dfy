// The user repository on one worker without Redis (UserRepository in user_repository.py): caching
// must not change an answer. Each call is one step; writes commit, then invalidate.
module UserRepository {
  import opened Prelude
  import opened Text
  import opened ProfileCache

  datatype RepositoryError = IntegrityError

  // The match of the SQL query: lower(username) = key or lower(email) = key.
  predicate Matches(u: User, key: string) {
    Lower(u.username) == key || Lower(u.email) == key
  }

  // The match of the cache index, which also strips the stored values.
  predicate Indexed(u: User, key: string) {
    Clean(u.username) == key || Clean(u.email) == key
  }

  ghost predicate AllTrimmed(rows: map<UserId, User>) {
    forall uid <- rows :: Trimmed(rows[uid].username)
  }

  ghost predicate RowsOk(rows: map<UserId, User>) {
    && (forall uid <- rows :: rows[uid].id == uid && Clean(rows[uid].email) == rows[uid].email)
    && (forall a, b | a in rows && b in rows && a != b ::
          rows[a].username != rows[b].username && rows[a].email != rows[b].email)
  }

  // Every cached record is the row, and every index entry points to a row that bears the key.
  ghost predicate CacheOk(rows: map<UserId, User>, l1: Tier) {
    && (forall uid <- l1.users :: uid in rows && l1.users[uid].value == rows[uid])
    && (forall key <- l1.idents :: l1.idents[key].value in rows && Indexed(rows[l1.idents[key].value], key))
  }

  predicate Conflicts(rows: map<UserId, User>, u: User) {
    exists uid :: uid in rows && uid != u.id && (rows[uid].username == u.username || rows[uid].email == u.email)
  }

  // The two matches differ on a row exactly when an outer space of its user name hides a key.
  lemma IndexAgreesWithQuery(u: User)
    requires Clean(u.email) == u.email
    ensures (forall key | key != "" && Clean(key) == key :: Indexed(u, key) <==> Matches(u, key))
       <==> Trimmed(u.username) || Clean(u.username) == "" || Clean(u.username) == u.email
  {
    LowerIdempotent(Strip(u.email));
    var name := Clean(u.username);
    CleanIdempotent(u.username);
    if Trimmed(u.username) {
      CleanTrimmed(u.username);
    } else {
      forall key | key != "" && Clean(key) == key
        ensures Lower(u.username) != key
      {
        CleanTrims(key);
        UntrimmedLower(u.username);
      }
      assert Indexed(u, name);
    }
  }

  lemma UntrimmedLower(s: string)
    requires !Trimmed(s)
    ensures !Trimmed(Lower(s))
  {
  }

  lemma PutKeepsCacheOk(rows: map<UserId, User>, l1: Tier, u: User, exp: Time)
    requires CacheOk(rows, l1) && u.id in rows && rows[u.id] == u
    ensures CacheOk(rows, Put(l1, u, exp))
  {
  }

  lemma TidyKeepsCacheOk(rows: map<UserId, User>, l1: Tier, now: Time)
    requires CacheOk(rows, l1)
    ensures CacheOk(rows, Tidy(l1, now))
  {
  }

  lemma RecordKeepsCacheOk(rows: map<UserId, User>, cfg: Config, l1: Tier, u: User, now: Time)
    requires CacheOk(rows, l1) && u.id in rows && rows[u.id] == u
    ensures CacheOk(rows, SetUserL1(cfg, l1, u, now))
  {
    hide Put, Tidy, CacheOk;
    var exp := now + cfg.l1Ttl;
    PutKeepsCacheOk(rows, l1, u, exp);
    TidyKeepsCacheOk(rows, Put(l1, u, exp), now);
  }

  lemma WriteKeepsRowsOk(rows: map<UserId, User>, u: User)
    requires RowsOk(rows) && !Conflicts(rows, u) && Clean(u.email) == u.email
    ensures RowsOk(rows[u.id := u])
  {
  }

  lemma LookupKeepsCacheOk(rows: map<UserId, User>, cfg: Config, l1: Tier, uid: UserId, now: Time)
    requires CacheOk(rows, l1)
    ensures CacheOk(rows, GetUser(cfg, l1, None, uid, now).l1)
    ensures var found := GetUser(cfg, l1, None, uid, now).found;
      found.Some? ==> uid in rows && found.value == rows[uid]
  {
  }

  lemma IdentifierLookupKeepsCacheOk(rows: map<UserId, User>, cfg: Config, l1: Tier, identifier: string, now: Time)
    requires CacheOk(rows, l1) && RowsOk(rows)
    ensures CacheOk(rows, GetUserByIdentifier(cfg, l1, None, identifier, now).l1)
    ensures var found := GetUserByIdentifier(cfg, l1, None, identifier, now).found;
      found.Some? ==>
        && found.value.id in rows && found.value == rows[found.value.id]
        && Indexed(found.value, Clean(identifier))
  {
    var key := Clean(identifier);
    if cfg.enabled && identifier != "" && LiveAt(l1.idents, key, now) {
      LookupKeepsCacheOk(rows, cfg, l1, l1.idents[key].value, now);
    }
  }

  // A committed change of row `uid` followed by the invalidation of that id.
  lemma InvalidateKeepsCacheOk(rows: map<UserId, User>, rows': map<UserId, User>, l1: Tier, uid: UserId)
    requires CacheOk(rows, l1)
    requires forall k | k in rows && k != uid :: k in rows' && rows'[k] == rows[k]
    ensures CacheOk(rows', InvalidateL1(l1, Some(uid), None))
  {
  }

  // A list or mapping given as such or as JSON text, with the outcome of the parser.
  datatype Given<+T> = Plain(value: T) | Json(parsed: Option<T>)

  // A text that does not parse counts as empty.
  function Decoded<T>(g: Given<T>, empty: T): T {
    match g
    case Plain(value) => value
    case Json(parsed) => OrElse(parsed, empty)
  }

  // The value is the one given, or the one its text parses to, or empty.
  predicate Stands<T(==)>(g: Given<T>, empty: T, value: T) {
    match g
    case Plain(v) => value == v
    case Json(Some(v)) => value == v
    case Json(None) => value == empty
  }

  // The allowed fields that an update names; the address is cleaned, the user name is not.
  datatype Changes = Changes(
    username: Option<string>,
    email: Option<string>,
    hashedPassword: Option<string>,
    isActive: Option<bool>,
    roles: Option<Given<seq<string>>>,
    metadata: Option<Given<map<string, string>>>)

  const NO_CHANGES := Changes(None, None, None, None, None, None)

  function OrElse<T>(o: Option<T>, default: T): T {
    if o.Some? then o.value else default
  }

  function Updated(u: User, c: Changes): User {
    User(u.id,
         OrElse(c.username, u.username),
         if c.email.Some? then Clean(c.email.value) else u.email,
         OrElse(c.hashedPassword, u.hashedPassword),
         OrElse(c.isActive, u.isActive),
         if c.roles.Some? then Decoded(c.roles.value, []) else u.roles,
         if c.metadata.Some? then Decoded(c.metadata.value, map[]) else u.metadata)
  }

  // The row of a new user: the name is trimmed, the address cleaned.
  function NewUser(uid: UserId, username: string, email: string, hashedPassword: string, isActive: bool,
                   roles: Option<Given<seq<string>>>, metadata: Option<Given<map<string, string>>>): User {
    User(uid, Strip(username), Clean(email), hashedPassword, isActive,
         if roles.Some? then Decoded(roles.value, []) else [],
         if metadata.Some? then Decoded(metadata.value, map[]) else map[])
  }

  method Change(u: User, c: Changes) returns (u': User)
    ensures u' == Updated(u, c)
    // The id and every field that is not named are kept, a named one takes its value; the address stays or becomes clean; the
    // same update again changes nothing.
    ensures u'.id == u.id
    ensures (c.username.None? ==> u'.username == u.username) && (c.email.None? ==> u'.email == u.email)
    ensures (c.hashedPassword.None? ==> u'.hashedPassword == u.hashedPassword)
         && (c.isActive.None? ==> u'.isActive == u.isActive)
    ensures (c.roles.None? ==> u'.roles == u.roles) && (c.metadata.None? ==> u'.metadata == u.metadata)
    ensures (c.username.Some? ==> u'.username == c.username.value)
         && (c.email.Some? ==> u'.email == Clean(c.email.value))
    ensures (c.hashedPassword.Some? ==> u'.hashedPassword == c.hashedPassword.value)
         && (c.isActive.Some? ==> u'.isActive == c.isActive.value)
    ensures (c.roles.Some? ==> Stands(c.roles.value, [], u'.roles))
         && (c.metadata.Some? ==> Stands(c.metadata.value, map[], u'.metadata))
    ensures Clean(u.email) == u.email || c.email.Some? ==> Clean(u'.email) == u'.email
    ensures Updated(u', c) == u'
  {
    CleanGivenEmail(c);
    u' := u;
    if c.username.Some? {
      u' := u'.(username := c.username.value);
    }
    if c.email.Some? {
      u' := u'.(email := Clean(c.email.value));
    }
    if c.hashedPassword.Some? {
      u' := u'.(hashedPassword := c.hashedPassword.value);
    }
    if c.isActive.Some? {
      u' := u'.(isActive := c.isActive.value);
    }
    if c.roles.Some? {
      u' := u'.(roles := Decoded(c.roles.value, []));
    }
    if c.metadata.Some? {
      u' := u'.(metadata := Decoded(c.metadata.value, map[]));
    }
  }

  lemma CleanGivenEmail(c: Changes)
    ensures c.email.Some? ==> Clean(Clean(c.email.value)) == Clean(c.email.value)
  {
    if c.email.Some? {
      CleanIdempotent(c.email.value);
    }
  }

  lemma UpdatedEmailClean(u: User, c: Changes)
    requires Clean(u.email) == u.email
    ensures Clean(Updated(u, c).email) == Updated(u, c).email
  {
    if c.email.Some? {
      CleanIdempotent(c.email.value);
    }
  }

  class UserRepository {
    const cache: UserProfileCache
    var rows: map<UserId, User>

    constructor (cfg: Config)
      ensures Valid() && fresh(cache) && cache.cfg == cfg && rows == map[]
    {
      cache := new UserProfileCache(cfg, null);
      rows := map[];
    }

    ghost predicate Valid()
      reads this, cache
    {
      cache.redis == null && RowsOk(rows) && CacheOk(rows, cache.l1)
    }

    // Exactly the answer of an uncached read.
    method GetById(uid: UserId, now: Time) returns (r: Option<User>)
      requires Valid()
      modifies cache
      ensures Valid()
      ensures r == if uid in rows then Some(rows[uid]) else None
    {
      LookupKeepsCacheOk(rows, cache.cfg, cache.l1, uid, now);
      r := cache.Get(uid, now);
      if r.Some? {
        return;
      }
      if uid in rows {
        r := Some(rows[uid]);
        RecordKeepsCacheOk(rows, cache.cfg, cache.l1, rows[uid], now);
        cache.Set(rows[uid], now);
      }
    }

    // None only if no row matches; otherwise a current row that matches, up to outer space in the
    // stored user name. With trimmed names this is exactly the uncached query.
    method GetByIdentifier(identifier: string, now: Time) returns (r: Option<User>)
      requires Valid()
      modifies cache
      ensures Valid()
      ensures r.None? ==> Clean(identifier) == "" || forall uid <- rows :: !Matches(rows[uid], Clean(identifier))
      ensures r.Some? ==> r.value.id in rows && rows[r.value.id] == r.value && Clean(identifier) != ""
      ensures r.Some? ==> Indexed(r.value, Clean(identifier)) || Matches(r.value, Clean(identifier))
      ensures AllTrimmed(rows) ==>
        && (r.Some? <==> Clean(identifier) != "" && exists uid :: uid in rows && Matches(rows[uid], Clean(identifier)))
        && (r.Some? ==> Matches(r.value, Clean(identifier)))
    {
      var key := Clean(identifier);
      if key == "" {
        return None;
      }
      CleanIdempotent(identifier);
      IdentifierLookupKeepsCacheOk(rows, cache.cfg, cache.l1, key, now);
      r := cache.GetByIdentifier(key, now);
      if r.Some? {
        if Trimmed(r.value.username) {
          IndexAgreesWithQuery(r.value);
        }
        return;
      }
      if exists uid :: uid in rows && Matches(rows[uid], key) {
        var uid :| uid in rows && Matches(rows[uid], key);
        r := Some(rows[uid]);
        RecordKeepsCacheOk(rows, cache.cfg, cache.l1, rows[uid], now);
        cache.Set(rows[uid], now);
      }
    }

    method CreateUser(uid: UserId, username: string, email: string, hashedPassword: string, isActive: bool,
                      roles: Option<Given<seq<string>>>, metadata: Option<Given<map<string, string>>>, now: Time)
      returns (r: Result<User, RepositoryError>)
      requires Valid()
      modifies this, cache
      ensures Valid()
      ensures var u := NewUser(uid, username, email, hashedPassword, isActive, roles, metadata);
        if uid in old(rows) || Conflicts(old(rows), u) then r == Err(IntegrityError) && rows == old(rows)
        else r == Ok(u) && rows == old(rows)[uid := u]
      ensures r.Ok? ==>
        && r.value.id == uid && r.value.username == Strip(username) && r.value.email == Clean(email)
        && r.value.hashedPassword == hashedPassword && r.value.isActive == isActive
        && (if roles.Some? then Stands(roles.value, [], r.value.roles) else r.value.roles == [])
        && (if metadata.Some? then Stands(metadata.value, map[], r.value.metadata) else r.value.metadata == map[])
    {
      var u := NewUser(uid, username, email, hashedPassword, isActive, roles, metadata);
      if uid in rows || Conflicts(rows, u) {
        return Err(IntegrityError);
      }
      CleanIdempotent(email);
      WriteKeepsRowsOk(rows, u);
      rows := rows[uid := u];
      var created := GetById(uid, now);
      RecordKeepsCacheOk(rows, cache.cfg, cache.l1, u, now);
      cache.Set(created.value, now);
      return Ok(created.value);
    }

    // Only a write that names a field of an existing row commits; it then invalidates that id.
    method UpdateUser(uid: UserId, c: Changes) returns (r: Result<bool, RepositoryError>)
      requires Valid()
      modifies this, cache
      ensures Valid()
      ensures if c == NO_CHANGES || uid !in old(rows) then r == Ok(false) && rows == old(rows)
        else if Conflicts(old(rows), Updated(old(rows)[uid], c)) then r == Err(IntegrityError) && rows == old(rows)
        else r == Ok(true) && rows == old(rows)[uid := Updated(old(rows)[uid], c)]
    {
      if c == NO_CHANGES || uid !in rows {
        return Ok(false);
      }
      var u := Change(rows[uid], c);
      if Conflicts(rows, u) {
        return Err(IntegrityError);
      }
      UpdatedEmailClean(rows[uid], c);
      WriteKeepsRowsOk(rows, u);
      InvalidateKeepsCacheOk(rows, rows[uid := u], cache.l1, uid);
      rows := rows[uid := u];
      var _ := cache.Invalidate(Some(uid), None, true);
      return Ok(true);
    }

    method DeleteUser(uid: UserId) returns (deleted: bool)
      requires Valid()
      modifies this, cache
      ensures Valid()
      ensures deleted <==> uid in old(rows)
      ensures rows == old(rows) - {uid}
    {
      if uid !in rows {
        return false;
      }
      InvalidateKeepsCacheOk(rows, rows - {uid}, cache.l1, uid);
      rows := rows - {uid};
      var _ := cache.Invalidate(Some(uid), None, true);
      return true;
    }

    method SetStatus(uid: UserId, isActive: bool) returns (updated: bool)
      requires Valid()
      modifies this, cache
      ensures Valid()
      ensures updated <==> uid in old(rows)
      ensures rows == if uid in old(rows) then old(rows)[uid := old(rows)[uid].(isActive := isActive)] else old(rows)
    {
      if uid !in rows {
        return false;
      }
      var u := rows[uid].(isActive := isActive);
      InvalidateKeepsCacheOk(rows, rows[uid := u], cache.l1, uid);
      rows := rows[uid := u];
      var _ := cache.Invalidate(Some(uid), None, true);
      return true;
    }
  }

  // Without Redis a cached lookup by an untrimmed user name answers where the query would not.
  lemma UntrimmedNameSplitsLookups(cfg: Config, u: User, now: Time)
    requires cfg.enabled && cfg.l1Ttl > 0.0
    requires !Trimmed(u.username) && Clean(u.username) != "" && Clean(u.username) != Lower(u.email)
    ensures GetUserByIdentifier(cfg, SetUserL1(cfg, EMPTY_TIER, u, now), None, Clean(u.username), now).found == Some(u)
    ensures !Matches(u, Clean(u.username))
  {
    CleanIdempotent(u.username);
    CleanTrims(u.username);
    UntrimmedLower(u.username);
  }
}
