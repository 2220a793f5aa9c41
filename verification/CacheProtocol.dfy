// Many workers, one Redis, one database: the steps of the cache and invalidation protocol
// (user_repository.py and the listener in api/v1/websocket_router.py).
module CacheProtocol {
  import opened Prelude
  import opened ProfileCache

  type Worker = nat
  type Writer = nat

  // A write that has committed and whose `invalidate` call has not finished.
  datatype Write = Write(worker: Worker, uid: UserId, cleared: bool)

  // A row read from the database and not yet handed to set_user.
  datatype Fetched = Fetched(user: User, at: Time)

  datatype World = World(
    db: map<UserId, User>,
    used: set<UserId>,
    l1: map<Worker, Tier>,
    l2: Tier,
    writes: map<Writer, Write>,
    queues: map<Worker, seq<UserId>>,
    fetched: map<Worker, seq<Fetched>>,
    now: Time)

  datatype Action =
    | Insert(user: User)
    | Commit(writer: Writer, worker: Worker, uid: UserId, row: Option<User>)
    | Clear(writer: Writer)
    | Publish(writer: Writer, toOrigin: bool)
    | Deliver(worker: Worker)
    | Lose(worker: Worker)
    | Read(worker: Worker, uid: UserId)
    | ReadByIdentifier(worker: Worker, identifier: string)
    | FetchAndSet(worker: Worker, uid: UserId)
    | Fetch(worker: Worker, uid: UserId)
    | SetFetched(worker: Worker)
    | Tick(to: Time)

  predicate WellFormed(w: World) {
    && w.queues.Keys == w.l1.Keys && w.fetched.Keys == w.l1.Keys
    && (forall uid <- w.db :: w.db[uid].id == uid && uid in w.used)
  }

  predicate Enabled(w: World, a: Action) {
    match a
    // create_user with a generated id
    case Insert(user) => user.id !in w.used
    // update_user, set_status, delete_user, consume_password_reset_token: only a write that changed
    // a row goes on to invalidate
    case Commit(writer, worker, uid, row) =>
      && writer !in w.writes && worker in w.l1 && uid in w.db
      && (row.Some? ==> row.value.id == uid)
    case Clear(writer) => writer in w.writes && !w.writes[writer].cleared
    case Publish(writer, _) => writer in w.writes && w.writes[writer].cleared
    case Deliver(worker) => worker in w.queues && w.queues[worker] != []
    case Lose(worker) => worker in w.queues && w.queues[worker] != []
    case Read(worker, _) => worker in w.l1
    case ReadByIdentifier(worker, _) => worker in w.l1
    case FetchAndSet(worker, uid) => worker in w.l1 && uid in w.db
    case Fetch(worker, uid) => worker in w.fetched && uid in w.db
    case SetFetched(worker) => worker in w.fetched && w.fetched[worker] != []
    case Tick(to) => w.now <= to
  }

  function SetIn(cfg: Config, w: World, worker: Worker, u: User): World
    requires worker in w.l1
  {
    w.(l1 := w.l1[worker := SetUserL1(cfg, w.l1[worker], u, w.now)], l2 := SetUserL2(cfg, w.l2, u, w.now))
  }

  function DropIn(w: World, worker: Worker, uid: UserId): World
    requires worker in w.l1
  {
    w.(l1 := w.l1[worker := InvalidateL1(w.l1[worker], Some(uid), None)],
       l2 := InvalidateL2(w.l2, Some(uid), None))
  }

  // The message reaches every subscriber; whether the sender is one of them is left open, because
  // the cache and the listener carry different node ids.
  function Enqueue(queues: map<Worker, seq<UserId>>, origin: Worker, toOrigin: bool, uid: UserId)
    : map<Worker, seq<UserId>>
  {
    map v | v in queues :: if v == origin && !toOrigin then queues[v] else queues[v] + [uid]
  }

  function Apply(cfg: Config, w: World, a: Action): World
    requires WellFormed(w) && Enabled(w, a)
  {
    match a
    case Insert(user) => w.(db := w.db[user.id := user], used := w.used + {user.id})
    case Commit(writer, worker, uid, row) =>
      w.(db := if row.Some? then w.db[uid := row.value] else w.db - {uid},
         writes := w.writes[writer := Write(worker, uid, false)])
    case Clear(writer) =>
      var p := w.writes[writer];
      if p.worker !in w.l1 then w
      else DropIn(w, p.worker, p.uid).(writes := w.writes[writer := p.(cleared := true)])
    case Publish(writer, toOrigin) =>
      var p := w.writes[writer];
      w.(writes := w.writes - {writer}, queues := Enqueue(w.queues, p.worker, toOrigin, p.uid))
    case Deliver(worker) =>
      DropIn(w, worker, w.queues[worker][0]).(queues := w.queues[worker := w.queues[worker][1..]])
    case Lose(worker) => w.(queues := w.queues[worker := w.queues[worker][1..]])
    case Read(worker, uid) =>
      w.(l1 := w.l1[worker := GetUser(cfg, w.l1[worker], Some(w.l2), uid, w.now).l1])
    case ReadByIdentifier(worker, identifier) =>
      w.(l1 := w.l1[worker := GetUserByIdentifier(cfg, w.l1[worker], Some(w.l2), identifier, w.now).l1])
    case FetchAndSet(worker, uid) => SetIn(cfg, w, worker, w.db[uid])
    case Fetch(worker, uid) =>
      w.(fetched := w.fetched[worker := w.fetched[worker] + [Fetched(w.db[uid], w.now)]])
    case SetFetched(worker) =>
      SetIn(cfg, w, worker, w.fetched[worker][0].user).(fetched := w.fetched[worker := w.fetched[worker][1..]])
    case Tick(to) => w.(now := to)
  }

  predicate Initial(w: World) {
    && WellFormed(w)
    && w.l2 == EMPTY_TIER && w.writes == map[]
    && (forall v <- w.l1 :: w.l1[v] == EMPTY_TIER && w.queues[v] == [] && w.fetched[v] == [])
  }

  // A run: the worlds it passes through and the actions between them.
  ghost predicate IsRun(cfg: Config, ws: seq<World>, acts: seq<Action>) {
    && |ws| == |acts| + 1 && Initial(ws[0])
    && forall i :: 0 <= i < |acts| ==> StepAt(cfg, ws, acts, i)
  }

  ghost predicate StepAt(cfg: Config, ws: seq<World>, acts: seq<Action>, i: nat)
    requires |ws| == |acts| + 1 && i < |acts|
  {
    WellFormed(ws[i]) && Enabled(ws[i], acts[i]) && ws[i + 1] == Apply(cfg, ws[i], acts[i])
  }

  lemma ApplyWellFormed(cfg: Config, w: World, a: Action)
    requires WellFormed(w) && Enabled(w, a)
    ensures WellFormed(Apply(cfg, w, a))
  {
  }

  lemma RunPrefix(cfg: Config, ws: seq<World>, acts: seq<Action>)
    requires IsRun(cfg, ws, acts) && acts != []
    ensures IsRun(cfg, ws[..|acts|], acts[..|acts| - 1])
    ensures StepAt(cfg, ws, acts, |acts| - 1)
  {
    var ws', acts' := ws[..|acts|], acts[..|acts| - 1];
    forall i | 0 <= i < |acts'|
      ensures StepAt(cfg, ws', acts', i)
    {
      assert StepAt(cfg, ws, acts, i);
    }
  }

  lemma RunExtends(cfg: Config, ws: seq<World>, acts: seq<Action>, a: Action)
    requires IsRun(cfg, ws, acts) && WellFormed(ws[|acts|]) && Enabled(ws[|acts|], a)
    ensures IsRun(cfg, ws + [Apply(cfg, ws[|acts|], a)], acts + [a])
  {
    var ws', acts' := ws + [Apply(cfg, ws[|acts|], a)], acts + [a];
    forall i | 0 <= i < |acts'|
      ensures StepAt(cfg, ws', acts', i)
    {
      if i < |acts| {
        assert StepAt(cfg, ws, acts, i);
      }
    }
  }
}
