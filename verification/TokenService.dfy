// Tokens and their revocation (token_service.py): the store with expiring Redis keys and the
// in-memory store that never forgets.
module TokenService {
  import opened Prelude

  // Seven days: the refresh-token lifetime, the default revocation TTL and the family TTL.
  const WEEK: int := 604800

  type Jti = nat
  type Family = nat

  datatype Kind = Access | Refresh

  // The claims of a signed token; `signed` is the outcome of the signature check.
  datatype Token = Token(jti: Jti, family: Option<Family>, kind: Kind, exp: int, signed: bool)

  // What a revocation names: a token id or a whole token string.
  datatype Ident = Id(jti: Jti) | Raw(token: Token)

  // Redis maps each key to the instant it expires; memory holds plain sets.
  datatype Store =
    | Redis(keys: map<Ident, Time>, familyKeys: map<Family, Time>)
    | Memory(blocklist: set<Ident>, revokedFamilies: set<Family>)

  datatype Rejection = Revoked | Invalid | Expired | FamilyRevoked

  predicate Live<K>(m: map<K, Time>, k: K, now: Time) {
    k in m && now < m[k]
  }

  // JWT timestamps are whole seconds; a token is valid while now < exp (section 4.1.4 of RFC 7519).
  predicate Unexpired(t: Token, now: Time) {
    now < t.exp as real
  }

  function ExpiryOf(now: Time, lifetime: int): int {
    WholeSeconds(now + lifetime as real)
  }

  predicate Blocked(s: Store, i: Ident, now: Time) {
    match s
    case Redis(keys, _) => Live(keys, i, now)
    case Memory(blocklist, _) => i in blocklist
  }

  // is_token_revoked
  predicate TokenRevoked(s: Store, i: Ident, now: Time) {
    Blocked(s, i, now) || (i.Raw? && Blocked(s, Id(i.token.jti), now))
  }

  // is_family_revoked
  predicate FamilyIsRevoked(s: Store, f: Family, now: Time) {
    match s
    case Redis(_, familyKeys) => Live(familyKeys, f, now)
    case Memory(_, revokedFamilies) => f in revokedFamilies
  }

  function JtiOf(i: Ident): Jti {
    match i case Id(jti) => jti case Raw(t) => t.jti
  }

  function ExpiresAt(i: Ident, expiresAt: Option<int>): Option<int> {
    if expiresAt.None? && i.Raw? then Some(i.token.exp) else expiresAt
  }

  function RevocationTtl(i: Ident, expiresAt: Option<int>, now: Time): int {
    match ExpiresAt(i, expiresAt)
    case None => WEEK
    case Some(e) => if e - WholeSeconds(now) > 1 then e - WholeSeconds(now) else 1
  }

  // revoke_token
  function Revoke(s: Store, i: Ident, expiresAt: Option<int>, now: Time): Store {
    match s
    case Redis(keys, _) =>
      var until := now + RevocationTtl(i, expiresAt, now) as real;
      s.(keys := keys[Id(JtiOf(i)) := until][i := until])
    case Memory(blocklist, _) =>
      s.(blocklist := blocklist + {Id(JtiOf(i)), i})
  }

  // revoke_family with its default lifetime
  function RevokeFamily(s: Store, f: Family, now: Time): Store {
    match s
    case Redis(_, familyKeys) => s.(familyKeys := familyKeys[f := now + WEEK as real])
    case Memory(_, revokedFamilies) => s.(revokedFamilies := revokedFamilies + {f})
  }

  function Decode(s: Store, t: Token, now: Time): Result<Token, Rejection> {
    if TokenRevoked(s, Raw(t), now) then Err(Revoked)
    else if !t.signed then Err(Invalid)
    else if !Unexpired(t, now) then Err(Expired)
    else if TokenRevoked(s, Id(t.jti), now) then Err(Revoked)
    else if t.family.Some? && FamilyIsRevoked(s, t.family.value, now) then Err(FamilyRevoked)
    else Ok(t)
  }

  // The service object: one backend for its whole life.
  class TokenService {
    const useRedis: bool
    var redisKeys: map<Ident, Time>
    var redisFamilyKeys: map<Family, Time>
    var inMemoryBlocklist: set<Ident>
    var inMemoryRevokedFamilies: set<Family>

    constructor (useRedis: bool)
      ensures Contents() == if useRedis then Redis(map[], map[]) else Memory({}, {})
    {
      this.useRedis := useRedis;
      redisKeys, redisFamilyKeys := map[], map[];
      inMemoryBlocklist, inMemoryRevokedFamilies := {}, {};
    }

    ghost function Contents(): Store
      reads this
    {
      if useRedis then Redis(redisKeys, redisFamilyKeys) else Memory(inMemoryBlocklist, inMemoryRevokedFamilies)
    }

    method RevokeToken(i: Ident, expiresAt: Option<int>, now: Time) returns (ok: bool)
      modifies this
      ensures ok
      ensures Contents() == Revoke(old(Contents()), i, expiresAt, now)
    {
      var ttl := WEEK;
      var jti := i;
      var exp := expiresAt;
      if i.Raw? {
        jti := Id(i.token.jti);
        if exp == None {
          exp := Some(i.token.exp);
        }
      }
      if exp.Some? {
        var left := exp.value - WholeSeconds(now);
        ttl := if left > 1 then left else 1;
      }
      if useRedis {
        redisKeys := redisKeys[jti := now + ttl as real];
        if jti != i {
          redisKeys := redisKeys[i := now + ttl as real];
        }
        return true;
      }
      inMemoryBlocklist := inMemoryBlocklist + {jti};
      if jti != i {
        inMemoryBlocklist := inMemoryBlocklist + {i};
      }
      return true;
    }

    method IsTokenRevoked(i: Ident, now: Time) returns (revoked: bool)
      ensures revoked <==> TokenRevoked(Contents(), i, now)
    {
      if useRedis && i in redisKeys && now < redisKeys[i] {
        return true;
      }
      if !useRedis && i in inMemoryBlocklist {
        return true;
      }
      if i.Raw? {
        var jti := Id(i.token.jti);
        if useRedis && jti in redisKeys && now < redisKeys[jti] {
          return true;
        }
        if !useRedis && jti in inMemoryBlocklist {
          return true;
        }
      }
      return false;
    }

    method RevokeTokenFamily(f: Family, now: Time) returns (ok: bool)
      modifies this
      ensures ok
      ensures Contents() == RevokeFamily(old(Contents()), f, now)
    {
      if useRedis {
        redisFamilyKeys := redisFamilyKeys[f := now + WEEK as real];
        return true;
      }
      inMemoryRevokedFamilies := inMemoryRevokedFamilies + {f};
      return true;
    }

    method IsFamilyRevoked(f: Family, now: Time) returns (revoked: bool)
      ensures revoked <==> FamilyIsRevoked(Contents(), f, now)
    {
      if useRedis {
        return f in redisFamilyKeys && now < redisFamilyKeys[f];
      }
      return f in inMemoryRevokedFamilies;
    }

    method DecodeAndVerify(t: Token, now: Time) returns (r: Result<Token, Rejection>)
      ensures r == Decode(Contents(), t, now)
    {
      var revoked := IsTokenRevoked(Raw(t), now);
      if revoked {
        return Err(Revoked);
      }
      if !t.signed {
        return Err(Invalid);
      }
      if now >= t.exp as real {
        return Err(Expired);
      }
      revoked := IsTokenRevoked(Id(t.jti), now);
      if revoked {
        return Err(Revoked);
      }
      if t.family.Some? {
        revoked := IsFamilyRevoked(t.family.value, now);
        if revoked {
          return Err(FamilyRevoked);
        }
      }
      return Ok(t);
    }
  }

  // ---------- expiring keys refine the sets that never forget ----------

  datatype Op =
    | Mint(jti: Jti, family: Option<Family>, kind: Kind, lifetime: int)
    | RevokeOp(ident: Ident, expiresAt: Option<int>)
    | RevokeFamilyOp(fam: Family)
    | Advance(to: Time)

  datatype World = World(store: Store, minted: set<Token>, now: Time)

  function Minted(op: Op, now: Time): Token
    requires op.Mint?
  {
    Token(op.jti, op.family, op.kind, ExpiryOf(now, op.lifetime), true)
  }

  function Step(w: World, op: Op): World {
    match op
    case Mint(_, _, _, _) => w.(minted := w.minted + {Minted(op, w.now)})
    case RevokeOp(i, e) => w.(store := Revoke(w.store, i, e, w.now))
    case RevokeFamilyOp(f) => w.(store := RevokeFamily(w.store, f, w.now))
    case Advance(to) => w.(now := to)
  }

  function Run(w: World, ops: seq<Op>): World
    decreases |ops|
  {
    if ops == [] then w else Run(Step(w, ops[0]), ops[1..])
  }

  // What a caller can check before each call, against the never-forgetting store m: token ids are
  // fresh and lifetimes bounded, an explicit expiry covers the token it revokes, no token is
  // minted into a revoked family, the clock does not go back.
  predicate Careful(m: World, op: Op, maxLifetime: int)
    requires m.store.Memory?
  {
    match op
    case Mint(jti, family, _, lifetime) =>
      && lifetime <= maxLifetime
      && Fresh(m, jti)
      && (family.Some? ==> family.value !in m.store.revokedFamilies)
    case RevokeOp(i, e) =>
      ExpiresAt(i, e).Some? ==> forall t <- m.minted :: t.jti == JtiOf(i) ==> t.exp <= ExpiresAt(i, e).value
    case RevokeFamilyOp(_) => true
    case Advance(to) => m.now <= to
  }

  predicate Fresh(m: World, jti: Jti)
    requires m.store.Memory?
  {
    (forall t <- m.minted :: t.jti != jti) && forall i <- m.store.blocklist :: JtiOf(i) != jti
  }

  predicate CarefulRun(m: World, ops: seq<Op>, maxLifetime: int)
    requires m.store.Memory?
    decreases |ops|
  {
    ops == [] || (Careful(m, ops[0], maxLifetime) && CarefulRun(Step(m, ops[0]), ops[1..], maxLifetime))
  }

  const EMPTY_REDIS := World(Redis(map[], map[]), {}, 0.0)
  const EMPTY_MEMORY := World(Memory({}, {}), {}, 0.0)

  // A signature cannot be forged: a token is one the service minted or it is not signed.
  predicate Presentable(w: World, t: Token) {
    t.signed ==> t in w.minted
  }

  ghost predicate SameVerdicts(r: World, m: World) {
    forall t | Presentable(m, t) :: Decode(r.store, t, r.now).Ok? <==> Decode(m.store, t, m.now).Ok?
  }

  // The key i is set and outlives every token it stands for.
  predicate Covers(w: World, keys: map<Ident, Time>, i: Ident) {
    i in keys && forall t <- w.minted :: t.jti == JtiOf(i) ==> t.exp as real <= keys[i]
  }

  predicate FamilyCovers(w: World, keys: map<Family, Time>, f: Family) {
    f in keys && forall t <- w.minted :: t.family == Some(f) ==> t.exp as real <= keys[f]
  }

  // The simulation relation between the two backends.
  ghost predicate Related(r: World, m: World) {
    && r.store.Redis? && m.store.Memory?
    && r.now == m.now && r.minted == m.minted
    && (forall t <- m.minted :: t.exp as real <= m.now + WEEK as real)
    && (forall i <- r.store.keys :: i in m.store.blocklist)
    && (forall i <- m.store.blocklist :: Covers(m, r.store.keys, i))
    && (forall f <- r.store.familyKeys :: f in m.store.revokedFamilies)
    && (forall f <- m.store.revokedFamilies :: FamilyCovers(m, r.store.familyKeys, f))
  }

  // max(1, exp - int(now)) seconds from now never ends before exp: truncating now only adds time.
  lemma TtlReachesExpiry(i: Ident, expiresAt: Option<int>, now: Time, exp: int)
    requires match ExpiresAt(i, expiresAt) case None => exp as real <= now + WEEK as real case Some(e) => exp <= e
    ensures exp as real <= now + RevocationTtl(i, expiresAt, now) as real
  {
  }

  // Nor does it last longer than needed: a token revoked before it expires keeps its key for less than
  // a second more, a family for a week.
  lemma KeysEnd(i: Ident, exp: int, now: Time, keys: map<Ident, Time>, familyKeys: map<Family, Time>, f: Family, to: Time)
    ensures exp > WholeSeconds(now) ==> now + RevocationTtl(i, Some(exp), now) as real < exp as real + 1.0
    ensures exp <= WholeSeconds(now) ==> RevocationTtl(i, Some(exp), now) == 1
    ensures FamilyIsRevoked(RevokeFamily(Redis(keys, familyKeys), f, now), f, to) <==> to < now + 604800.0
  {
  }

  lemma MintRelated(r: World, m: World, op: Op)
    requires Related(r, m) && Careful(m, op, WEEK) && op.Mint?
    ensures Related(Step(r, op), Step(m, op))
  {
  }

  lemma RevokeRelated(r: World, m: World, op: Op)
    requires Related(r, m) && Careful(m, op, WEEK) && op.RevokeOp?
    ensures Related(Step(r, op), Step(m, op))
  {
  }

  lemma RevokeFamilyRelated(r: World, m: World, op: Op)
    requires Related(r, m) && op.RevokeFamilyOp?
    ensures Related(Step(r, op), Step(m, op))
  {
  }

  lemma AdvanceRelated(r: World, m: World, op: Op)
    requires Related(r, m) && Careful(m, op, WEEK) && op.Advance?
    ensures Related(Step(r, op), Step(m, op))
  {
  }

  lemma {:induction false} RunRelated(r: World, m: World, ops: seq<Op>)
    requires Related(r, m) && CarefulRun(m, ops, WEEK)
    ensures Related(Run(r, ops), Run(m, ops))
    decreases |ops|
  {
    if ops == [] {
    } else {
      match ops[0] {
        case Mint(_, _, _, _) => MintRelated(r, m, ops[0]);
        case RevokeOp(_, _) => RevokeRelated(r, m, ops[0]);
        case RevokeFamilyOp(_) => RevokeFamilyRelated(r, m, ops[0]);
        case Advance(_) => AdvanceRelated(r, m, ops[0]);
      }
      RunRelated(Step(r, ops[0]), Step(m, ops[0]), ops[1..]);
    }
  }

  lemma RelatedSameVerdicts(r: World, m: World)
    requires Related(r, m)
    ensures SameVerdicts(r, m)
  {
  }

  ghost predicate BackendsAgree(maxLifetime: int) {
    forall ops: seq<Op> | CarefulRun(EMPTY_MEMORY, ops, maxLifetime) ::
      SameVerdicts(Run(EMPTY_REDIS, ops), Run(EMPTY_MEMORY, ops))
  }

  // A token that lives longer than a week is accepted again once its default revocation key is gone.
  lemma LongLivedTokenReturns(lifetime: int)
    requires lifetime > WEEK
    ensures !BackendsAgree(lifetime)
  {
    var ops := [Mint(0, None, Refresh, lifetime), RevokeOp(Id(0), None), Advance(WEEK as real)];
    var t := Minted(ops[0], 0.0);
    var m1, r1 := Step(EMPTY_MEMORY, ops[0]), Step(EMPTY_REDIS, ops[0]);
    var m2, r2 := Step(m1, ops[1]), Step(r1, ops[1]);
    var m3, r3 := Step(m2, ops[2]), Step(r2, ops[2]);
    assert ops[1..][1..] == ops[2..] && ops[2..][1..] == [];
    assert Run(m3, []) == m3 && Run(r3, []) == r3;
    assert Run(EMPTY_MEMORY, ops) == Run(m1, ops[1..]) == Run(m2, ops[2..]) == m3;
    assert Run(EMPTY_REDIS, ops) == Run(r1, ops[1..]) == Run(r2, ops[2..]) == r3;
    assert CarefulRun(m2, ops[2..], lifetime);
    assert CarefulRun(m1, ops[1..], lifetime);
    assert CarefulRun(EMPTY_MEMORY, ops, lifetime);
    assert t in m3.minted && t.exp == lifetime && Presentable(m3, t);
    assert r2.store.keys[Id(0)] == WEEK as real;
    assert Id(0) in m3.store.blocklist;
    assert Decode(r3.store, t, r3.now).Ok?;
    assert !Decode(m3.store, t, m3.now).Ok?;
  }

  // The keys with a time to live accept exactly the tokens that the never-forgetting sets accept,
  // on every careful run, if and only if no token lives longer than a week.
  lemma TtlBlocklistRefinesSets(maxLifetime: int)
    ensures BackendsAgree(maxLifetime) <==> maxLifetime <= 604800
  {
    if maxLifetime <= WEEK {
      forall ops: seq<Op> | CarefulRun(EMPTY_MEMORY, ops, maxLifetime)
        ensures SameVerdicts(Run(EMPTY_REDIS, ops), Run(EMPTY_MEMORY, ops))
      {
        CarefulMonotone(EMPTY_MEMORY, ops, maxLifetime);
        RunRelated(EMPTY_REDIS, EMPTY_MEMORY, ops);
        RelatedSameVerdicts(Run(EMPTY_REDIS, ops), Run(EMPTY_MEMORY, ops));
      }
    } else {
      LongLivedTokenReturns(maxLifetime);
    }
  }

  lemma {:induction false} CarefulMonotone(m: World, ops: seq<Op>, maxLifetime: int)
    requires m.store.Memory? && CarefulRun(m, ops, maxLifetime) && maxLifetime <= WEEK
    ensures CarefulRun(m, ops, WEEK)
    decreases |ops|
  {
    if ops == [] {
    } else {
      CarefulMonotone(Step(m, ops[0]), ops[1..], maxLifetime);
    }
  }

  // ---------- the verdict, read off the operations ----------

  predicate RevokedIn(ops: seq<Op>, jti: Jti) {
    exists op <- ops :: op.RevokeOp? && (op.ident == Id(jti) || (op.ident.Raw? && op.ident.token.jti == jti))
  }

  lemma RevokedFirst(op: Op, ops: seq<Op>, jti: Jti)
    ensures RevokedIn([op] + ops, jti) <==> RevokedIn([op], jti) || RevokedIn(ops, jti)
  {
    assert forall o :: o in [op] + ops <==> o in [op] || o in ops;
  }

  lemma {:induction false} MemoryRemembers(w: World, ops: seq<Op>)
    requires w.store.Memory?
    ensures Run(w, ops).store.Memory?
    ensures forall j :: Id(j) in Run(w, ops).store.blocklist <==> Id(j) in w.store.blocklist || RevokedIn(ops, j)
    ensures forall t :: Raw(t) in Run(w, ops).store.blocklist ==> Raw(t) in w.store.blocklist || RevokedIn(ops, t.jti)
    ensures forall f :: f in Run(w, ops).store.revokedFamilies <==>
      f in w.store.revokedFamilies || RevokeFamilyOp(f) in ops
    decreases |ops|
  {
    if ops == [] {
    } else {
      var op, rest := ops[0], ops[1..];
      assert ops == [op] + rest && op in [op];
      forall j
        ensures RevokedIn(ops, j) <==> RevokedIn([op], j) || RevokedIn(rest, j)
      {
        RevokedFirst(op, rest, j);
      }
      assert forall j :: RevokedIn([op], j) <==>
        op.RevokeOp? && (op.ident == Id(j) || (op.ident.Raw? && op.ident.token.jti == j));
      MemoryRemembers(Step(w, op), rest);
      hide RevokedIn;
    }
  }

  // Without Redis, after any operations: a token is refused as revoked if its id ever was, else as
  // invalid without a signature, else as expired, else for its family if that ever was revoked;
  // otherwise its own claims are returned.
  lemma VerdictFollowsOperations(ops: seq<Op>, t: Token, now: Time)
    ensures Decode(Run(EMPTY_MEMORY, ops).store, t, now) ==
      if RevokedIn(ops, t.jti) then Err(Revoked)
      else if !t.signed then Err(Invalid)
      else if now >= t.exp as real then Err(Expired)
      else if t.family.Some? && RevokeFamilyOp(t.family.value) in ops then Err(FamilyRevoked)
      else Ok(t)
  {
    MemoryRemembers(EMPTY_MEMORY, ops);
    hide RevokedIn, Run;
  }

  // With Redis, on careful runs with lifetimes up to a week, exactly the same tokens are accepted.
  lemma RedisAcceptsExactly(ops: seq<Op>, t: Token)
    requires CarefulRun(EMPTY_MEMORY, ops, WEEK) && Presentable(Run(EMPTY_MEMORY, ops), t)
    ensures var w := Run(EMPTY_REDIS, ops);
      Decode(w.store, t, w.now).Ok? <==>
        && t.signed && w.now < t.exp as real && !RevokedIn(ops, t.jti)
        && (t.family.Some? ==> RevokeFamilyOp(t.family.value) !in ops)
  {
    RunRelated(EMPTY_REDIS, EMPTY_MEMORY, ops);
    RelatedSameVerdicts(Run(EMPTY_REDIS, ops), Run(EMPTY_MEMORY, ops));
    VerdictFollowsOperations(ops, t, Run(EMPTY_MEMORY, ops).now);
    hide RevokedIn, Run, CarefulRun, Decode;
  }
}
