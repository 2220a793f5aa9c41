// Completions of MFA challenges over the profile cache: complete_mfa_challenge in authenticator.py
// reads the profile with get_by_id, so what it sees is what a worker's cache answers.
module MfaThroughCache {
  import opened Prelude
  import opened ProfileCache
  import opened CacheProtocol
  import opened CacheCoherence
  import Mfa

  // The second-factor part of a user record.
  type Reader = User -> Mfa.Account

  // Where a completion reads: a world of the cache run and a worker.
  datatype Place = Place(world: nat, worker: Worker)

  function Seen(account: Reader, answer: Option<User>): Option<Mfa.Account> {
    if answer.Some? then Some(account(answer.value)) else None
  }

  // The MFA model and the database hold the same accounts.
  predicate SameRows(w: World, h: Mfa.History, account: Reader) {
    h.s.accounts.Keys == w.db.Keys && forall uid <- w.db :: h.s.accounts[uid] == account(w.db[uid])
  }

  predicate ReadsFrom(cfg: Config, w: World, v: Worker, h: Mfa.History, e: Mfa.Event, account: Reader)
    requires e.Submit?
  {
    v in w.l1 && e.at == w.now && SameRows(w, h, account) && e.seen == Seen(account, Answer(cfg, w, v, e.user))
  }

  // Along one run of the cache, each completion reads at its place; places do not go back. What a
  // read or a write-back does to the cache is a step of that run.
  predicate JointRun(cfg: Config, ws: seq<World>, places: seq<Place>, h: Mfa.History, es: seq<Mfa.Event>, account: Reader)
    requires |places| == |es|
    decreases |es|
  {
    es == [] ||
    (&& places[0].world < |ws|
     && (es[0].Submit? ==> ReadsFrom(cfg, ws[places[0].world], places[0].worker, h, es[0], account))
     && (|places| > 1 ==> places[0].world <= places[1].world)
     && JointRun(cfg, ws, places[1..], Mfa.Step(h, es[0]), es[1..], account))
  }

  // The user is quiet for the worker when its completion reads.
  ghost predicate QuietAt(ws: seq<World>, p: Place, e: Mfa.Event) {
    e.Submit? ==>
      && p.world < |ws| && p.worker in ws[p.world].queues
      && Quiet(ws[p.world], e.user, p.worker)
  }

  lemma QuietReadSeesCodes(cfg: Config, w: World, v: Worker, h: Mfa.History, e: Mfa.Event, account: Reader)
    requires Coherent(w) && v in w.l1 && v in w.queues && e.Submit? && Quiet(w, e.user, v)
    requires ReadsFrom(cfg, w, v, h, e, account)
    ensures e.seen == if e.user in h.s.accounts then Some(h.s.accounts[e.user]) else None
    ensures Mfa.SawCodes(h, e)
  {
    QuietReadIsExact(cfg, w, v, e.user);
    Mfa.CompleteAccounts(h, e);
  }

  lemma {:induction false} QuietRunSeesCodes(cfg: Config, ws: seq<World>, places: seq<Place>, h: Mfa.History,
                                             es: seq<Mfa.Event>, account: Reader)
    requires AlwaysCoherent(ws) && |places| == |es| && JointRun(cfg, ws, places, h, es, account)
    requires forall i :: 0 <= i < |es| ==> QuietAt(ws, places[i], es[i])
    ensures Mfa.AllSawCodes(h, es)
    decreases |es|
  {
    if es == [] {
    } else {
      assert QuietAt(ws, places[0], es[0]);
      if es[0].Submit? {
        QuietReadSeesCodes(cfg, ws[places[0].world], places[0].worker, h, es[0], account);
      }
      forall i | 0 <= i < |es[1..]|
        ensures QuietAt(ws, places[1..][i], es[1..][i])
      {
        assert QuietAt(ws, places[i + 1], es[i + 1]);
      }
      QuietRunSeesCodes(cfg, ws, places[1..], Mfa.Step(h, es[0]), es[1..], account);
    }
  }

  // The guard a deployment can keep: on a harmless run of the cache, if each completion reads at a
  // worker for which its user is quiet, the codes of every user balance throughout.
  lemma QuietCompletionsConserve(cfg: Config, ws: seq<World>, acts: seq<Action>, places: seq<Place>, h: Mfa.History,
                                 es: seq<Mfa.Event>, account: Reader)
    requires IsRun(cfg, ws, acts) && AllHarmless(cfg, ws, acts)
    requires Mfa.Initial(h) && |places| == |es| && JointRun(cfg, ws, places, h, es, account)
    requires forall i :: 0 <= i < |es| ==> QuietAt(ws, places[i], es[i])
    ensures Mfa.AlwaysConserved(h, es)
  {
    CoherentExactly(cfg, ws, acts);
    QuietRunSeesCodes(cfg, ws, places, h, es, account);
    Mfa.ConservedExactly(h, es);
  }

  lemma JointMore(cfg: Config, ws: seq<World>, p: Place, places: seq<Place>, h: Mfa.History, e: Mfa.Event,
                  es: seq<Mfa.Event>, account: Reader)
    requires |places| == |es| && JointRun(cfg, ws, places, Mfa.Step(h, e), es, account)
    requires p.world < |ws| && (places != [] ==> p.world <= places[0].world)
    requires e.Submit? ==> ReadsFrom(cfg, ws[p.world], p.worker, h, e, account)
    ensures JointRun(cfg, ws, [p] + places, h, [e] + es, account)
  {
    assert ([p] + places)[1..] == places && ([e] + es)[1..] == es;
  }

  // Two completions after three other events, read at two places.
  lemma JointFive(cfg: Config, ws: seq<World>, p: Place, q: Place, h: Mfa.History, e1: Mfa.Event, e2: Mfa.Event,
                  e3: Mfa.Event, e4: Mfa.Event, e5: Mfa.Event, account: Reader)
    requires p.world <= q.world < |ws| && !e1.Submit? && !e2.Submit? && !e3.Submit? && e4.Submit? && e5.Submit?
    requires var h3 := Mfa.Step(Mfa.Step(Mfa.Step(h, e1), e2), e3);
      && ReadsFrom(cfg, ws[p.world], p.worker, h3, e4, account)
      && ReadsFrom(cfg, ws[q.world], q.worker, Mfa.Step(h3, e4), e5, account)
    ensures JointRun(cfg, ws, [p, p, p, p, q], h, [e1, e2, e3, e4, e5], account)
  {
    hide Mfa.Step, ReadsFrom;
    var h1 := Mfa.Step(h, e1);
    var h2 := Mfa.Step(h1, e2);
    var h3 := Mfa.Step(h2, e3);
    JointMore(cfg, ws, q, [], Mfa.Step(h3, e4), e5, [], account);
    JointMore(cfg, ws, p, [q], h3, e4, [e5], account);
    assert [p] + [q] == [p, q] && [e4] + [e5] == [e4, e5];
    JointMore(cfg, ws, p, [p, q], h2, e3, [e4, e5], account);
    assert [p] + [p, q] == [p, p, q] && [e3] + [e4, e5] == [e3, e4, e5];
    JointMore(cfg, ws, p, [p, p, q], h1, e2, [e3, e4, e5], account);
    assert [p] + [p, p, q] == [p, p, p, q] && [e2] + [e3, e4, e5] == [e2, e3, e4, e5];
    JointMore(cfg, ws, p, [p, p, p, q], h, e1, [e2, e3, e4, e5], account);
    assert [p] + [p, p, p, q] == [p, p, p, p, q] && [e1] + [e2, e3, e4, e5] == [e1, e2, e3, e4, e5];
    hide JointRun;
  }

  const NO_HISTORY := Mfa.History(Mfa.State(false, map[], map[]), map[], [], map[], map[], 0.0)

  function Setup(u: UserId, code: Mfa.CodeHash, id: Mfa.ChallengeId, other: Mfa.ChallengeId): Mfa.History {
    var seen := Some(Mfa.Account(true, [code]));
    Mfa.Step(Mfa.Step(Mfa.Step(NO_HISTORY, Mfa.Enrol(u, [code], 0.0)), Mfa.Begin(seen, u, id, 0.0)),
             Mfa.Begin(seen, u, other, 0.0))
  }

  lemma SetupAccounts(u: UserId, code: Mfa.CodeHash, id: Mfa.ChallengeId, other: Mfa.ChallengeId)
    requires id != other
    ensures var h, seen := Setup(u, code, id, other), Some(Mfa.Account(true, [code]));
      && h.s.accounts == map[u := Mfa.Account(true, [code])]
      && Mfa.Step(h, Mfa.Submit(seen, u, id, false, code, 0.0)).s.accounts == map[u := Mfa.Account(true, [])]
  {
    var h := Setup(u, code, id, other);
    assert h.s.challenges == map[id := Mfa.Challenge(u, 300.0, 0, 300.0), other := Mfa.Challenge(u, 300.0, 0, 300.0)];
    assert h.s.accounts == map[u := Mfa.Account(true, [code])] && !h.s.useRedis;
    assert Mfa.RemoveFirst([code], code) == [];
    assert map[u := Mfa.Account(true, [code])][u := Mfa.Account(true, [])] == map[u := Mfa.Account(true, [])];
  }

  lemma UncachedAnswer(w: World, row: User)
    requires Uncached(w, row)
    ensures Answer(DEFAULT_CONFIG, w, 0, row.id) == Some(row)
  {
  }

  lemma ReadsOneRow(w: World, row: User, answer: User, h: Mfa.History, e: Mfa.Event, account: Reader)
    requires e.Submit? && e.at == w.now && 0 in w.l1 && w.db == map[row.id := row]
    requires h.s.accounts == map[row.id := account(row)]
    requires Answer(DEFAULT_CONFIG, w, 0, e.user) == Some(answer) && e.seen == Some(account(answer))
    ensures ReadsFrom(DEFAULT_CONFIG, w, 0, h, e, account)
  {
  }

  // Without the guard the promise fails, on one worker with no message lost: a read of the profile
  // waits while the first completion's write goes through, and its late set_user brings the used
  // code back for the second.
  lemma GapReusesCode(before: User, after: User, account: Reader, code: Mfa.CodeHash, id: Mfa.ChallengeId,
                      other: Mfa.ChallengeId)
    returns (ws: seq<World>, acts: seq<Action>, places: seq<Place>, es: seq<Mfa.Event>)
    requires before.id == after.id && id != other
    requires account(before) == Mfa.Account(true, [code]) && account(after) == Mfa.Account(true, [])
    ensures IsRun(DEFAULT_CONFIG, ws, acts) && forall a <- acts :: !a.Lose?
    ensures |places| == |es| && JointRun(DEFAULT_CONFIG, ws, places, NO_HISTORY, es, account)
    ensures Mfa.Possible(NO_HISTORY, es)
    ensures var h, u := Mfa.Run(NO_HISTORY, es), before.id;
      u in h.enrolled && h.enrolled[u] == [code] && Mfa.ConsumedBy(h, u) == [code, code]
  {
    ws, acts := GapLeavesStaleRecord(before, after);
    var u, old_ := before.id, Some(Mfa.Account(true, [code]));
    var e1, e2, e3 := Mfa.Enrol(u, [code], 0.0), Mfa.Begin(old_, u, id, 0.0), Mfa.Begin(old_, u, other, 0.0);
    var e4, e5 := Mfa.Submit(old_, u, id, false, code, 0.0), Mfa.Submit(old_, u, other, false, code, 0.0);
    es, places := [e1, e2, e3, e4, e5], [Place(1, 0), Place(1, 0), Place(1, 0), Place(1, 0), Place(|acts|, 0)];
    assert [e1, e2, e3] + [e4, e5] == es;
    Mfa.OldProfileReusesCode(NO_HISTORY, u, code, id, other, 0.0);
    SetupAccounts(u, code, id, other);
    var h3 := Setup(u, code, id, other);
    var h4 := Mfa.Step(h3, e4);
    assert h3 == Mfa.Step(Mfa.Step(Mfa.Step(NO_HISTORY, e1), e2), e3);
    hide Mfa.Step, Mfa.Possible, Mfa.Run, Setup, JointRun, Mfa.AllSawCodes, Mfa.SawCodes, IsRun;
    UncachedAnswer(ws[1], before);
    ReadsOneRow(ws[1], before, before, h3, e4, account);
    ReadsOneRow(ws[|acts|], after, before, h4, e5, account);
    hide ReadsFrom, Answer, Uncached, Current;
    JointFive(DEFAULT_CONFIG, ws, places[0], places[4], NO_HISTORY, e1, e2, e3, e4, e5, account);
  }
}
