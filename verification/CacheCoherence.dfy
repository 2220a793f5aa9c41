// What the invalidation protocol guarantees: the exact steps that can break coherence, and coherence
// on every run without them.
module CacheCoherence {
  import opened Prelude
  import opened ProfileCache
  import opened CacheProtocol

  // The cached record is what the database holds now.
  predicate Current(w: World, uid: UserId, u: User) {
    uid in w.db && w.db[uid] == u
  }

  // A committed write of uid that has not yet deleted the L2 key.
  ghost predicate WriteBeforeClear(w: World, uid: UserId) {
    exists p :: p in w.writes && w.writes[p].uid == uid && !w.writes[p].cleared
  }

  // A committed write of uid that has not yet told worker v.
  ghost predicate WriteUntold(w: World, uid: UserId, v: Worker) {
    exists p :: p in w.writes && w.writes[p].uid == uid && (!w.writes[p].cleared || w.writes[p].worker != v)
  }

  ghost predicate Untold(w: World, uid: UserId, v: Worker)
    requires v in w.queues
  {
    WriteUntold(w, uid, v) || uid in w.queues[v]
  }

  // An L2 record differs from the row only while some committed write has not deleted the key.
  ghost predicate L2Coherent(w: World) {
    forall uid <- w.l2.users ::
      uid in w.used && (Current(w, uid, w.l2.users[uid].value) || WriteBeforeClear(w, uid))
  }

  // An L1 record differs only while a write or a queued message has still to reach the worker.
  ghost predicate L1Coherent(w: World, v: Worker)
    requires v in w.l1 && v in w.queues
  {
    forall uid <- w.l1[v].users ::
      uid in w.used && (Current(w, uid, w.l1[v].users[uid].value) || Untold(w, uid, v))
  }

  predicate FetchedKnown(w: World) {
    forall v <- w.fetched, f <- w.fetched[v] :: f.user.id in w.used
  }

  ghost predicate L2Ok(w: World) {
    WellFormed(w) && FetchedKnown(w) && L2Coherent(w)
  }

  ghost predicate Coherent(w: World) {
    && L2Ok(w) && (forall v <- w.l1 :: L1Coherent(w, v))
    && (forall p <- w.writes :: w.writes[p].worker in w.l1)
  }

  // ---------- the two steps that can break it ----------

  // A row that waited between its read and its set_user is still the row, or a write that replaced
  // it has yet to delete the key.
  ghost predicate StoresFresh(cfg: Config, w: World, a: Action)
    requires Enabled(w, a)
  {
    a.SetFetched? && cfg.enabled ==>
      var u := w.fetched[a.worker][0].user;
      Current(w, u.id, u) || WriteBeforeClear(w, u.id)
  }

  // A lost message leaves no old record at that worker, or another notice is on its way.
  ghost predicate LossIsHarmless(w: World, a: Action)
    requires WellFormed(w) && Enabled(w, a)
  {
    a.Lose? ==>
      var v, uid := a.worker, w.queues[a.worker][0];
      uid in w.l1[v].users ==>
        Current(w, uid, w.l1[v].users[uid].value) || WriteUntold(w, uid, v) || uid in w.queues[v][1..]
  }

  // ---------- one step, L2 ----------

  predicate SameRow(w: World, w': World, uid: UserId) {
    (uid in w.db <==> uid in w'.db) && (uid in w.db ==> w.db[uid] == w'.db[uid])
  }

  ghost predicate L2Carried(w: World, w': World, uid: UserId) {
    WriteBeforeClear(w', uid) || (SameRow(w, w', uid) && (WriteBeforeClear(w, uid) ==> WriteBeforeClear(w', uid)))
  }

  // A record that may be stored now.
  ghost predicate Storable(w: World, uid: UserId, u: User) {
    uid in w.used && (Current(w, uid, u) || WriteBeforeClear(w, uid))
  }

  // Where a record of L2 can come from: it was there, or it is stored now.
  ghost predicate L2Source(w: World, w': World, uid: UserId)
    requires uid in w'.l2.users
  {
    var u := w'.l2.users[uid].value;
    (uid in w.l2.users && w.l2.users[uid].value == u && L2Carried(w, w', uid)) || Storable(w', uid, u)
  }

  lemma L2StepSource(cfg: Config, w: World, a: Action, uid: UserId)
    requires L2Ok(w) && Enabled(w, a) && StoresFresh(cfg, w, a) && uid in Apply(cfg, w, a).l2.users
    ensures L2Source(w, Apply(cfg, w, a), uid)
  {
    assert WellFormed(w);
    hide L2Ok, L2Source, StoresFresh, Apply, Enabled, WellFormed;
    match a
    case Commit(_, _, _, _) => L2CommitSource(cfg, w, a, uid);
    case Clear(_) => L2DropSource(cfg, w, a, uid);
    case Deliver(_) => L2DropSource(cfg, w, a, uid);
    case Publish(_, _) => L2PublishSource(cfg, w, a, uid);
    case FetchAndSet(_, _) => L2SetSource(cfg, w, a, uid);
    case SetFetched(_) => L2SetSource(cfg, w, a, uid);
    case _ => L2OtherSource(cfg, w, a, uid);
  }

  lemma L2OtherSource(cfg: Config, w: World, a: Action, uid: UserId)
    requires L2Ok(w) && Enabled(w, a) && uid in Apply(cfg, w, a).l2.users
    requires a.Insert? || a.Lose? || a.Read? || a.ReadByIdentifier? || a.Fetch? || a.Tick?
    ensures L2Source(w, Apply(cfg, w, a), uid)
  {
    WritesStay(w, Apply(cfg, w, a), uid);
  }

  lemma L2CommitSource(cfg: Config, w: World, a: Action, uid: UserId)
    requires L2Ok(w) && a.Commit? && Enabled(w, a) && uid in Apply(cfg, w, a).l2.users
    ensures L2Source(w, Apply(cfg, w, a), uid)
  {
    var w' := Apply(cfg, w, a);
    assert a.writer in w'.writes && w'.writes[a.writer] == Write(a.worker, a.uid, false);
    WritesStay(w, w', uid);
  }

  lemma L2DropSource(cfg: Config, w: World, a: Action, uid: UserId)
    requires L2Ok(w) && (a.Clear? || a.Deliver?) && Enabled(w, a) && uid in Apply(cfg, w, a).l2.users
    ensures L2Source(w, Apply(cfg, w, a), uid)
  {
    WritesStay(w, Apply(cfg, w, a), uid);
  }

  lemma L2PublishSource(cfg: Config, w: World, a: Action, uid: UserId)
    requires L2Ok(w) && a.Publish? && Enabled(w, a) && uid in Apply(cfg, w, a).l2.users
    ensures L2Source(w, Apply(cfg, w, a), uid)
  {
    var w' := Apply(cfg, w, a);
    if q :| q in w.writes && w.writes[q].uid == uid && !w.writes[q].cleared {
      assert q in w'.writes && w'.writes[q] == w.writes[q];
    }
  }

  lemma L2SetSource(cfg: Config, w: World, a: Action, uid: UserId)
    requires L2Ok(w) && (a.FetchAndSet? || a.SetFetched?) && Enabled(w, a) && StoresFresh(cfg, w, a)
    requires uid in Apply(cfg, w, a).l2.users
    ensures L2Source(w, Apply(cfg, w, a), uid)
  {
    WritesStay(w, Apply(cfg, w, a), uid);
  }

  lemma FetchedStaysKnown(cfg: Config, w: World, a: Action)
    requires WellFormed(w) && FetchedKnown(w) && Enabled(w, a)
    ensures FetchedKnown(Apply(cfg, w, a))
  {
  }

  lemma L2StepKeeps(cfg: Config, w: World, a: Action)
    requires L2Ok(w) && Enabled(w, a) && StoresFresh(cfg, w, a)
    ensures L2Ok(Apply(cfg, w, a))
  {
    var w' := Apply(cfg, w, a);
    ApplyWellFormed(cfg, w, a);
    FetchedStaysKnown(cfg, w, a);
    assert w.used <= w'.used;
    forall uid <- w'.l2.users
      ensures uid in w'.used && (Current(w', uid, w'.l2.users[uid].value) || WriteBeforeClear(w', uid))
    {
      L2StepSource(cfg, w, a, uid);
      hide Apply, Enabled, StoresFresh, WriteBeforeClear, FetchedKnown;
    }
    hide Apply, Enabled, StoresFresh, WriteBeforeClear, FetchedKnown, WellFormed;
  }

  // L1 never feeds L2, so lost messages do not matter to L2: the one step that breaks its coherence
  // is a set_user with a row that a finished write has replaced.
  lemma L2StepExactly(cfg: Config, w: World, a: Action)
    requires L2Ok(w) && Enabled(w, a)
    ensures L2Ok(Apply(cfg, w, a)) <==> StoresFresh(cfg, w, a)
  {
    if StoresFresh(cfg, w, a) {
      L2StepKeeps(cfg, w, a);
    } else {
      var w', u := Apply(cfg, w, a), w.fetched[a.worker][0].user;
      assert w'.l2.users[u.id].value == u && w'.db == w.db && w'.writes == w.writes;
      hide Apply;
    }
  }

  // ---------- one step, L1 ----------

  ghost predicate L1Carried(w: World, w': World, uid: UserId, v: Worker)
    requires v in w.queues && v in w'.queues
  {
    Untold(w', uid, v) || (SameRow(w, w', uid) && (Untold(w, uid, v) ==> Untold(w', uid, v)))
  }

  // Where a record of L1 can come from: it was there, L2 had it, or it is stored now.
  ghost predicate L1Source(w: World, w': World, uid: UserId, v: Worker)
    requires v in w.l1 && v in w'.l1 && uid in w'.l1[v].users
    requires v in w.queues && v in w'.queues
  {
    var u := w'.l1[v].users[uid].value;
    || (uid in w.l1[v].users && w.l1[v].users[uid].value == u && L1Carried(w, w', uid, v))
    || (uid in w.l2.users && w.l2.users[uid].value == u && L1Carried(w, w', uid, v))
    || Storable(w', uid, u)
  }

  lemma CarryOver(w: World, w': World)
    requires Coherent(w) && L2Ok(w') && w'.l1.Keys == w.l1.Keys && w.used <= w'.used
    requires forall p <- w'.writes :: w'.writes[p].worker in w'.l1
    requires forall v <- w'.l1, uid <- w'.l1[v].users :: L1Source(w, w', uid, v)
    ensures Coherent(w')
  {
    forall v <- w'.l1
      ensures L1Coherent(w', v)
    {
      assert L1Coherent(w, v);
      forall uid <- w'.l1[v].users
        ensures uid in w'.used && (Current(w', uid, w'.l1[v].users[uid].value) || Untold(w', uid, v))
      {
        assert L1Source(w, w', uid, v);
        BeforeClearIsUntold(w, uid, v);
        BeforeClearIsUntold(w', uid, v);
      }
    }
  }

  lemma BeforeClearIsUntold(w: World, uid: UserId, v: Worker)
    ensures WriteBeforeClear(w, uid) ==> WriteUntold(w, uid, v)
  {
  }

  // Writes of uid that stay pending keep excusing it.
  lemma WritesStay(w: World, w': World, uid: UserId)
    requires forall p <- w.writes :: w.writes[p].uid == uid ==> p in w'.writes && w'.writes[p] == w.writes[p]
    ensures WriteBeforeClear(w, uid) ==> WriteBeforeClear(w', uid)
    ensures forall v :: WriteUntold(w, uid, v) ==> WriteUntold(w', uid, v)
  {
  }

  lemma StaysUntold(w: World, w': World, uid: UserId, v: Worker)
    requires v in w.queues && v in w'.queues
    requires forall p <- w.writes :: w.writes[p].uid == uid ==> p in w'.writes && w'.writes[p] == w.writes[p]
    requires uid in w.queues[v] ==> uid in w'.queues[v]
    ensures Untold(w, uid, v) ==> Untold(w', uid, v)
  {
  }

  predicate ComesFrom(l1': Tier, l1: Tier, l2: Tier) {
    forall k <- l1'.users ::
      || (k in l1.users && l1.users[k].value == l1'.users[k].value)
      || (k in l2.users && l2.users[k].value == l1'.users[k].value)
  }

  // Lookups only keep records of L1 and copy records of L2.
  lemma LookupComesFrom(cfg: Config, l1: Tier, l2: Tier, uid: UserId, now: Time)
    ensures ComesFrom(GetUser(cfg, l1, Some(l2), uid, now).l1, l1, l2)
  {
  }

  lemma IdentifierLookupComesFrom(cfg: Config, l1: Tier, l2: Tier, identifier: string, now: Time)
    ensures ComesFrom(GetUserByIdentifier(cfg, l1, Some(l2), identifier, now).l1, l1, l2)
  {
  }

  lemma SetComesFrom(cfg: Config, l1: Tier, u: User, now: Time)
    ensures forall k <- SetUserL1(cfg, l1, u, now).users ::
      var r := SetUserL1(cfg, l1, u, now).users[k].value;
      (k in l1.users && l1.users[k].value == r) || (k == u.id && r == u)
  {
  }

  // A step that leaves L1, the writes, the queues and every used row alone.
  lemma UntouchedKeeps(w: World, w': World)
    requires Coherent(w) && L2Ok(w') && w'.l1 == w.l1
    requires w'.writes == w.writes && w'.queues == w.queues && w.used <= w'.used
    requires forall uid <- w.used :: SameRow(w, w', uid)
    ensures Coherent(w')
  {
    forall v <- w'.l1, uid <- w'.l1[v].users
      ensures L1Source(w, w', uid, v)
    {
      assert L1Coherent(w, v);
      StaysUntold(w, w', uid, v);
    }
    CarryOver(w, w');
  }

  lemma CommitKeeps(cfg: Config, w: World, a: Action)
    requires Coherent(w) && a.Commit? && Enabled(w, a) && L2Ok(Apply(cfg, w, a))
    ensures Coherent(Apply(cfg, w, a))
  {
    var w' := Apply(cfg, w, a);
    assert a.writer in w'.writes && w'.writes[a.writer] == Write(a.worker, a.uid, false);
    forall v <- w'.l1, uid <- w'.l1[v].users
      ensures L1Source(w, w', uid, v)
    {
      assert WriteUntold(w', a.uid, v);
      StaysUntold(w, w', uid, v);
    }
    CarryOver(w, w');
  }

  lemma ClearKeeps(cfg: Config, w: World, a: Action)
    requires Coherent(w) && a.Clear? && Enabled(w, a) && L2Ok(Apply(cfg, w, a))
    ensures Coherent(Apply(cfg, w, a))
  {
    var w', p := Apply(cfg, w, a), w.writes[a.writer];
    assert w'.writes[a.writer] == p.(cleared := true);
    forall v <- w'.l1, uid <- w'.l1[v].users
      ensures L1Source(w, w', uid, v)
    {
      if uid == p.uid {
        assert v != p.worker;
        assert WriteUntold(w', uid, v);
      } else {
        StaysUntold(w, w', uid, v);
      }
    }
    CarryOver(w, w');
  }

  // A published write no longer counts as untold, but every worker it had not told has the message.
  lemma PublishTells(w: World, w': World, writer: Writer, toOrigin: bool, uid: UserId, v: Worker)
    requires writer in w.writes && w.writes[writer].cleared && v in w.queues
    requires w'.writes == w.writes - {writer}
    requires w'.queues == Enqueue(w.queues, w.writes[writer].worker, toOrigin, w.writes[writer].uid)
    ensures Untold(w, uid, v) ==> Untold(w', uid, v)
  {
    if Untold(w, uid, v) && uid !in w'.queues[v] {
      var q :| q in w.writes && w.writes[q].uid == uid && (!w.writes[q].cleared || w.writes[q].worker != v);
      assert q in w'.writes && w'.writes[q] == w.writes[q];
    }
  }

  lemma PublishKeeps(cfg: Config, w: World, a: Action)
    requires Coherent(w) && a.Publish? && Enabled(w, a) && L2Ok(Apply(cfg, w, a))
    ensures Coherent(Apply(cfg, w, a))
  {
    var w' := Apply(cfg, w, a);
    forall v <- w'.l1, uid <- w'.l1[v].users
      ensures L1Source(w, w', uid, v)
    {
      PublishTells(w, w', a.writer, a.toOrigin, uid, v);
    }
    CarryOver(w, w');
  }

  lemma DeliverKeeps(cfg: Config, w: World, a: Action)
    requires Coherent(w) && a.Deliver? && Enabled(w, a) && L2Ok(Apply(cfg, w, a))
    ensures Coherent(Apply(cfg, w, a))
  {
    var w', head := Apply(cfg, w, a), w.queues[a.worker][0];
    forall v <- w'.l1, uid <- w'.l1[v].users
      ensures L1Source(w, w', uid, v)
    {
      assert v != a.worker || uid != head;
      StaysUntold(w, w', uid, v);
    }
    CarryOver(w, w');
  }

  lemma LoseExactly(cfg: Config, w: World, a: Action)
    requires Coherent(w) && a.Lose? && Enabled(w, a) && L2Ok(Apply(cfg, w, a))
    ensures Coherent(Apply(cfg, w, a)) <==> LossIsHarmless(w, a)
  {
    var w', x, head := Apply(cfg, w, a), a.worker, w.queues[a.worker][0];
    assert w' == w.(queues := w.queues[x := w.queues[x][1..]]);
    hide Apply, L2Ok;
    forall v <- w.l1
      ensures L1Coherent(w', v) <==> v == x ==> LossIsHarmless(w, a)
    {
      LoseAtWorker(w, w', a, v);
    }
  }

  lemma LoseAtWorker(w: World, w': World, a: Action, v: Worker)
    requires WellFormed(w) && v in w.l1 && L1Coherent(w, v) && a.Lose? && Enabled(w, a)
    requires w' == w.(queues := w.queues[a.worker := w.queues[a.worker][1..]])
    ensures L1Coherent(w', v) <==> (v == a.worker ==> LossIsHarmless(w, a))
  {
    hide WellFormed;
    forall uid
      ensures WriteUntold(w', uid, v) <==> WriteUntold(w, uid, v)
    {
    }
    hide WriteUntold;
  }

  // New contents for the tiers, taken from the tiers themselves or stored now.
  lemma NewTiersKeep(w: World, w': World, v: Worker, t1: Tier)
    requires Coherent(w) && v in w.l1 && L2Ok(w') && w'.l1 == w.l1[v := t1]
    requires w'.db == w.db && w'.used == w.used && w'.writes == w.writes && w'.queues == w.queues
    requires forall k <- t1.users ::
      || (k in w.l1[v].users && w.l1[v].users[k].value == t1.users[k].value)
      || (k in w.l2.users && w.l2.users[k].value == t1.users[k].value)
      || Storable(w, k, t1.users[k].value)
    ensures Coherent(w')
  {
    forall x <- w'.l1, uid <- w'.l1[x].users
      ensures L1Source(w, w', uid, x)
    {
      StaysUntold(w, w', uid, x);
    }
    CarryOver(w, w');
  }

  lemma ReadKeeps(cfg: Config, w: World, a: Action)
    requires Coherent(w) && (a.Read? || a.ReadByIdentifier?) && Enabled(w, a) && L2Ok(Apply(cfg, w, a))
    ensures Coherent(Apply(cfg, w, a))
  {
    if a.Read? {
      LookupComesFrom(cfg, w.l1[a.worker], w.l2, a.uid, w.now);
    } else {
      IdentifierLookupComesFrom(cfg, w.l1[a.worker], w.l2, a.identifier, w.now);
    }
    var w' := Apply(cfg, w, a);
    NewTiersKeep(w, w', a.worker, w'.l1[a.worker]);
  }

  lemma SetKeeps(cfg: Config, w: World, a: Action)
    requires Coherent(w) && (a.FetchAndSet? || a.SetFetched?) && Enabled(w, a)
    requires L2Ok(Apply(cfg, w, a)) && StoresFresh(cfg, w, a)
    ensures Coherent(Apply(cfg, w, a))
  {
    var u := if a.FetchAndSet? then w.db[a.uid] else w.fetched[a.worker][0].user;
    SetComesFrom(cfg, w.l1[a.worker], u, w.now);
    NewTiersKeep(w, Apply(cfg, w, a), a.worker, SetUserL1(cfg, w.l1[a.worker], u, w.now));
  }

  lemma QuietStepKeeps(cfg: Config, w: World, a: Action)
    requires Coherent(w) && (a.Insert? || a.Fetch? || a.Tick?) && Enabled(w, a) && L2Ok(Apply(cfg, w, a))
    ensures Coherent(Apply(cfg, w, a))
  {
    UntouchedKeeps(w, Apply(cfg, w, a));
  }

  lemma DeliveredStepKeeps(cfg: Config, w: World, a: Action)
    requires Coherent(w) && Enabled(w, a) && L2Ok(Apply(cfg, w, a)) && StoresFresh(cfg, w, a) && !a.Lose?
    ensures Coherent(Apply(cfg, w, a))
  {
    assert WellFormed(w);
    hide Coherent, L2Ok, StoresFresh, Apply, Enabled, WellFormed;
    match a
    case Commit(_, _, _, _) => CommitKeeps(cfg, w, a);
    case Clear(_) => ClearKeeps(cfg, w, a);
    case Publish(_, _) => PublishKeeps(cfg, w, a);
    case Deliver(_) => DeliverKeeps(cfg, w, a);
    case Read(_, _) => ReadKeeps(cfg, w, a);
    case ReadByIdentifier(_, _) => ReadKeeps(cfg, w, a);
    case FetchAndSet(_, _) => SetKeeps(cfg, w, a);
    case SetFetched(_) => SetKeeps(cfg, w, a);
    case _ => QuietStepKeeps(cfg, w, a);
  }

  // From a coherent world every step leads to a coherent one, except exactly a set_user with a row
  // that is no longer fresh and a loss that leaves an old record behind.
  lemma StepExactly(cfg: Config, w: World, a: Action)
    requires Coherent(w) && Enabled(w, a)
    ensures Coherent(Apply(cfg, w, a)) <==> StoresFresh(cfg, w, a) && LossIsHarmless(w, a)
  {
    L2StepExactly(cfg, w, a);
    hide L2Ok, StoresFresh, L1Coherent, Apply, Enabled;
    if StoresFresh(cfg, w, a) {
      if a.Lose? {
        LoseExactly(cfg, w, a);
      } else {
        DeliveredStepKeeps(cfg, w, a);
      }
    }
  }

  // ---------- the results ----------

  ghost predicate FreshAt(cfg: Config, ws: seq<World>, acts: seq<Action>, i: nat)
    requires |ws| == |acts| + 1 && i < |acts|
  {
    StepAt(cfg, ws, acts, i) && StoresFresh(cfg, ws[i], acts[i])
  }

  ghost predicate HarmlessAt(cfg: Config, ws: seq<World>, acts: seq<Action>, i: nat)
    requires |ws| == |acts| + 1 && i < |acts|
  {
    FreshAt(cfg, ws, acts, i) && LossIsHarmless(ws[i], acts[i])
  }

  ghost predicate AllFresh(cfg: Config, ws: seq<World>, acts: seq<Action>)
    requires |ws| == |acts| + 1
  {
    forall i :: 0 <= i < |acts| ==> FreshAt(cfg, ws, acts, i)
  }

  ghost predicate AllHarmless(cfg: Config, ws: seq<World>, acts: seq<Action>)
    requires |ws| == |acts| + 1
  {
    forall i :: 0 <= i < |acts| ==> HarmlessAt(cfg, ws, acts, i)
  }

  lemma FreshSplits(cfg: Config, ws: seq<World>, acts: seq<Action>)
    requires IsRun(cfg, ws, acts) && acts != []
    ensures var n := |acts| - 1;
      AllFresh(cfg, ws, acts) <==> AllFresh(cfg, ws[..|acts|], acts[..n]) && FreshAt(cfg, ws, acts, n)
  {
    hide StoresFresh, Apply, Enabled, WellFormed;
    var n := |acts| - 1;
    assert forall i :: 0 <= i < n ==> (FreshAt(cfg, ws[..|acts|], acts[..n], i) <==> FreshAt(cfg, ws, acts, i));
  }

  lemma HarmlessSplits(cfg: Config, ws: seq<World>, acts: seq<Action>)
    requires IsRun(cfg, ws, acts) && acts != []
    ensures var n := |acts| - 1;
      AllHarmless(cfg, ws, acts) <==> AllHarmless(cfg, ws[..|acts|], acts[..n]) && HarmlessAt(cfg, ws, acts, n)
  {
    hide StoresFresh, LossIsHarmless, Apply, Enabled, WellFormed;
    var n := |acts| - 1;
    assert forall i :: 0 <= i < n ==> (HarmlessAt(cfg, ws[..|acts|], acts[..n], i) <==> HarmlessAt(cfg, ws, acts, i));
  }

  ghost predicate L2AlwaysOk(ws: seq<World>) {
    forall i :: 0 <= i < |ws| ==> L2Ok(ws[i])
  }

  ghost predicate AlwaysCoherent(ws: seq<World>) {
    forall i :: 0 <= i < |ws| ==> Coherent(ws[i])
  }

  lemma AlwaysSplits(ws: seq<World>)
    requires ws != []
    ensures L2AlwaysOk(ws) <==> L2AlwaysOk(ws[..|ws| - 1]) && L2Ok(ws[|ws| - 1])
    ensures AlwaysCoherent(ws) <==> AlwaysCoherent(ws[..|ws| - 1]) && Coherent(ws[|ws| - 1])
  {
    hide L2Ok, Coherent;
    assert forall i :: 0 <= i < |ws| - 1 ==> ws[..|ws| - 1][i] == ws[i];
  }

  lemma StepAtExactly(cfg: Config, ws: seq<World>, acts: seq<Action>, i: nat)
    requires |ws| == |acts| + 1 && i < |acts| && StepAt(cfg, ws, acts, i)
    ensures L2Ok(ws[i]) ==> (L2Ok(ws[i + 1]) <==> FreshAt(cfg, ws, acts, i))
    ensures Coherent(ws[i]) ==> (Coherent(ws[i + 1]) <==> HarmlessAt(cfg, ws, acts, i))
  {
    hide L2Ok, Coherent, StoresFresh, LossIsHarmless, Apply, Enabled, WellFormed;
    if L2Ok(ws[i]) {
      L2StepExactly(cfg, ws[i], acts[i]);
    }
    if Coherent(ws[i]) {
      StepExactly(cfg, ws[i], acts[i]);
    }
  }

  lemma EmptyRun(cfg: Config, ws: seq<World>, acts: seq<Action>)
    requires IsRun(cfg, ws, acts) && acts == []
    ensures L2AlwaysOk(ws) && AllFresh(cfg, ws, acts) && AlwaysCoherent(ws) && AllHarmless(cfg, ws, acts)
  {
    assert Initial(ws[0]);
  }

  // On every run, whatever messages are lost, L2 is coherent throughout exactly when each set_user
  // stores a row that is still fresh.
  lemma {:induction false} L2CoherentExactly(cfg: Config, ws: seq<World>, acts: seq<Action>)
    requires IsRun(cfg, ws, acts)
    ensures L2AlwaysOk(ws) <==> AllFresh(cfg, ws, acts)
    decreases |acts|
  {
    assert |ws| == |acts| + 1;
    hide L2Ok, L2AlwaysOk, AllFresh, FreshAt, Coherent, AlwaysCoherent, AllHarmless, HarmlessAt, StepAt, IsRun;
    if acts == [] {
      EmptyRun(cfg, ws, acts);
    } else {
      var n := |acts| - 1;
      RunPrefix(cfg, ws, acts);
      FreshSplits(cfg, ws, acts);
      L2CoherentExactly(cfg, ws[..|acts|], acts[..n]);
      AlwaysSplits(ws);
      AlwaysSplits(ws[..|acts|]);
      StepAtExactly(cfg, ws, acts, n);
    }
  }

  // Multi-worker coherence: both tiers are coherent throughout a run exactly when no set_user stores
  // a replaced row and no loss leaves an old record without another notice. Reads and set_users that
  // are one step, and messages that arrive, are always harmless.
  lemma {:induction false} CoherentExactly(cfg: Config, ws: seq<World>, acts: seq<Action>)
    requires IsRun(cfg, ws, acts)
    ensures AlwaysCoherent(ws) <==> AllHarmless(cfg, ws, acts)
    decreases |acts|
  {
    assert |ws| == |acts| + 1;
    hide L2Ok, L2AlwaysOk, AllFresh, FreshAt, Coherent, AlwaysCoherent, AllHarmless, HarmlessAt, StepAt, IsRun;
    if acts == [] {
      EmptyRun(cfg, ws, acts);
    } else {
      var n := |acts| - 1;
      RunPrefix(cfg, ws, acts);
      HarmlessSplits(cfg, ws, acts);
      CoherentExactly(cfg, ws[..|acts|], acts[..n]);
      AlwaysSplits(ws);
      AlwaysSplits(ws[..|acts|]);
      StepAtExactly(cfg, ws, acts, n);
    }
  }

  // No write of uid is under way and no message about it waits for worker v.
  ghost predicate Quiet(w: World, uid: UserId, v: Worker)
    requires v in w.queues
  {
    (forall p <- w.writes :: w.writes[p].uid != uid) && uid !in w.queues[v]
  }

  // What a read by id answers: the cache first, then the database.
  function Answer(cfg: Config, w: World, v: Worker, uid: UserId): Option<User>
    requires v in w.l1
  {
    var got := GetUser(cfg, w.l1[v], Some(w.l2), uid, w.now).found;
    if got.Some? then got else if uid in w.db then Some(w.db[uid]) else None
  }

  lemma QuietReadIsExact(cfg: Config, w: World, v: Worker, uid: UserId)
    requires Coherent(w) && v in w.l1 && v in w.queues && Quiet(w, uid, v)
    ensures Answer(cfg, w, v, uid) == if uid in w.db then Some(w.db[uid]) else None
  {
    assert L1Coherent(w, v);
  }

  // Once a user is quiet for a worker, its reads answer exactly as an uncached read of the database.
  lemma QuietReadsAreExact(cfg: Config, ws: seq<World>, acts: seq<Action>, i: nat, v: Worker, uid: UserId)
    requires IsRun(cfg, ws, acts) && AllHarmless(cfg, ws, acts) && i < |ws|
    requires v in ws[i].l1 && v in ws[i].queues && Quiet(ws[i], uid, v)
    ensures Answer(cfg, ws[i], v, uid) == if uid in ws[i].db then Some(ws[i].db[uid]) else None
  {
    CoherentExactly(cfg, ws, acts);
    QuietReadIsExact(cfg, ws[i], v, uid);
  }

  // With no write and no message pending, every record of every worker and of Redis is the row.
  lemma SettledCachesEqualDatabase(cfg: Config, ws: seq<World>, acts: seq<Action>)
    requires IsRun(cfg, ws, acts) && AllHarmless(cfg, ws, acts)
    requires var w := ws[|acts|]; w.writes == map[] && forall v <- w.queues :: w.queues[v] == []
    ensures var w := ws[|acts|];
      (forall uid <- w.l2.users :: Current(w, uid, w.l2.users[uid].value)) &&
      (forall v <- w.l1, uid <- w.l1[v].users :: Current(w, uid, w.l1[v].users[uid].value))
  {
    var w := ws[|acts|];
    CoherentExactly(cfg, ws, acts);
    forall v <- w.l1, uid <- w.l1[v].users
      ensures Current(w, uid, w.l1[v].users[uid].value)
    {
      assert L1Coherent(w, v);
    }
  }

  // One worker, nothing cached, the row in the database.
  predicate Uncached(w: World, row: User) {
    w.l1 == map[0 := EMPTY_TIER] && w.l2 == EMPTY_TIER && w.db == map[row.id := row] && w.queues == map[0 := []]
    && w.now == 0.0
  }

  // A write commits while a fetched row waits.
  lemma CommitDuringGap(before: User, after: User) returns (ws: seq<World>, acts: seq<Action>)
    requires before.id == after.id
    ensures IsRun(DEFAULT_CONFIG, ws, acts) && forall a <- acts :: !a.Lose?
    ensures |ws| > 1 && Uncached(ws[1], before)
    ensures var w := ws[|acts|];
      && WellFormed(w) && w.now == 0.0 && w.writes == map[0 := Write(0, before.id, false)]
      && w.l1.Keys == {0} && w.queues == map[0 := []]
      && w.fetched == map[0 := [Fetched(before, 0.0)]] && w.db == map[before.id := after]
  {
    var uid, cfg := before.id, DEFAULT_CONFIG;
    var w0 := World(map[uid := before], {uid}, map[0 := EMPTY_TIER], EMPTY_TIER, map[], map[0 := []], map[0 := []], 0.0);
    ws, acts := [w0], [];
    RunExtends(cfg, ws, acts, Fetch(0, uid));
    var w1 := Apply(cfg, w0, Fetch(0, uid));
    ws, acts := ws + [w1], acts + [Fetch(0, uid)];
    assert w1.fetched[0] == [Fetched(before, 0.0)];
    var commit := Commit(0, 0, uid, Some(after));
    RunExtends(cfg, ws, acts, commit);
    ws, acts := ws + [Apply(cfg, w1, commit)], acts + [commit];
  }

  // It clears both tiers and publishes.
  lemma PublishDuringGap(before: User, after: User) returns (ws: seq<World>, acts: seq<Action>)
    requires before.id == after.id
    ensures IsRun(DEFAULT_CONFIG, ws, acts) && forall a <- acts :: !a.Lose?
    ensures |ws| > 1 && Uncached(ws[1], before)
    ensures var w := ws[|acts|];
      && WellFormed(w) && w.now == 0.0 && w.writes == map[] && w.l1.Keys == {0} && w.queues == map[0 := [before.id]]
      && w.fetched == map[0 := [Fetched(before, 0.0)]] && w.db == map[before.id := after]
  {
    var uid, cfg := before.id, DEFAULT_CONFIG;
    ws, acts := CommitDuringGap(before, after);
    var w2 := ws[|acts|];
    RunExtends(cfg, ws, acts, Clear(0));
    var w3 := Apply(cfg, w2, Clear(0));
    ws, acts := ws + [w3], acts + [Clear(0)];
    assert w3.writes == map[0 := Write(0, uid, true)];
    RunExtends(cfg, ws, acts, Publish(0, true));
    var w4 := Apply(cfg, w3, Publish(0, true));
    ws, acts := ws + [w4], acts + [Publish(0, true)];
    assert w4.queues[0] == [uid] && w4.writes == map[];
  }

  // A whole write, from commit to delivery, while a fetched row waits.
  lemma WriteDuringGap(before: User, after: User) returns (ws: seq<World>, acts: seq<Action>)
    requires before.id == after.id
    ensures IsRun(DEFAULT_CONFIG, ws, acts) && forall a <- acts :: !a.Lose?
    ensures |ws| > 1 && Uncached(ws[1], before)
    ensures var w := ws[|acts|];
      && WellFormed(w) && w.now == 0.0 && w.writes == map[] && w.l1.Keys == {0} && w.queues == map[0 := []]
      && w.fetched == map[0 := [Fetched(before, 0.0)]] && w.db == map[before.id := after]
  {
    var cfg := DEFAULT_CONFIG;
    ws, acts := PublishDuringGap(before, after);
    var w4 := ws[|acts|];
    RunExtends(cfg, ws, acts, Deliver(0));
    var w5 := Apply(cfg, w4, Deliver(0));
    ws, acts := ws + [w5], acts + [Deliver(0)];
    assert w5.queues[0] == [];
  }

  // The one-step assumption is needed: in get_by_id another task may run between the query and
  // set_user. If a whole write fits in that gap, the old row returns to both tiers with nothing left
  // to remove it but its time to live.
  lemma GapLeavesStaleRecord(before: User, after: User) returns (ws: seq<World>, acts: seq<Action>)
    requires before.id == after.id && before != after
    ensures IsRun(DEFAULT_CONFIG, ws, acts) && forall a <- acts :: !a.Lose?
    ensures |ws| > 1 && Uncached(ws[1], before)
    ensures var w := ws[|acts|];
      && w.writes == map[] && (forall v <- w.queues :: w.queues[v] == [])
      && before.id in w.l2.users && !Current(w, before.id, w.l2.users[before.id].value)
      && w.now == 0.0 && w.db == map[after.id := after] && 0 in w.l1
      && Answer(DEFAULT_CONFIG, w, 0, before.id) == Some(before)
  {
    ws, acts := WriteDuringGap(before, after);
    var w := ws[|acts|];
    RunExtends(DEFAULT_CONFIG, ws, acts, SetFetched(0));
    var w' := Apply(DEFAULT_CONFIG, w, SetFetched(0));
    assert w'.l2.users[before.id].value == before;
    assert w'.l1[0].users[before.id] == Entry(before, w.now + 30.0);
    ws, acts := ws + [w'], acts + [SetFetched(0)];
  }
}
