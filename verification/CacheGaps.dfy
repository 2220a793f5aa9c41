// When the gap between a database read and the set_user after it is harmless: a condition on what
// happens inside the gap.
module CacheGaps {
  import opened Prelude
  import opened ProfileCache
  import opened CacheProtocol
  import opened CacheCoherence

  // The reads of worker v that wait for their set_user before action j, oldest first.
  function Waiting(acts: seq<Action>, j: nat, v: Worker): seq<nat>
    requires j <= |acts|
  {
    if j == 0 then []
    else
      var earlier := Waiting(acts, j - 1, v);
      if acts[j - 1].Fetch? && acts[j - 1].worker == v then earlier + [j - 1]
      else if acts[j - 1].SetFetched? && acts[j - 1].worker == v && earlier != [] then earlier[1..]
      else earlier
  }

  // Row f is what the read at step i returned.
  predicate ReadAt(ws: seq<World>, acts: seq<Action>, i: nat, f: Fetched) {
    && i < |acts| && i < |ws| && acts[i].Fetch? && f.user.id == acts[i].uid
    && Current(ws[i], f.user.id, f.user) && f.at == ws[i].now
  }

  lemma {:induction false} WaitingMatches(cfg: Config, ws: seq<World>, acts: seq<Action>, j: nat, v: Worker)
    requires IsRun(cfg, ws, acts) && j <= |acts| && v in ws[j].fetched
    ensures |Waiting(acts, j, v)| == |ws[j].fetched[v]|
    ensures forall k :: 0 <= k < |ws[j].fetched[v]| ==>
      Waiting(acts, j, v)[k] < j && ReadAt(ws, acts, Waiting(acts, j, v)[k], ws[j].fetched[v][k])
    decreases j
  {
    if j == 0 {
      assert Initial(ws[0]);
    } else {
      assert StepAt(cfg, ws, acts, j - 1);
      QueueStep(cfg, ws[j - 1], acts[j - 1], v);
      WaitingMatches(cfg, ws, acts, j - 1, v);
      hide Apply, Enabled, WellFormed;
    }
  }

  lemma QueueStep(cfg: Config, w: World, a: Action, v: Worker)
    requires WellFormed(w) && Enabled(w, a) && v in Apply(cfg, w, a).fetched
    ensures v in w.fetched
    ensures var q, q' := w.fetched[v], Apply(cfg, w, a).fetched[v];
      if a.Fetch? && a.worker == v then
        a.uid in w.db && w.db[a.uid].id == a.uid && q' == q + [Fetched(w.db[a.uid], w.now)]
      else if a.SetFetched? && a.worker == v then q != [] && q' == q[1..]
      else q' == q
  {
  }

  ghost predicate Fresh(w: World, u: User) {
    Current(w, u.id, u) || WriteBeforeClear(w, u.id)
  }

  // The step is the deletion of the user's L2 key by a writer.
  predicate ClearsUser(w: World, a: Action, uid: UserId) {
    a.Clear? && a.writer in w.writes && w.writes[a.writer].uid == uid
  }

  lemma FreshSurvives(cfg: Config, w: World, a: Action, u: User)
    requires WellFormed(w) && Enabled(w, a) && Fresh(w, u) && !ClearsUser(w, a, u.id)
    ensures Fresh(Apply(cfg, w, a), u)
  {
    var w' := Apply(cfg, w, a);
    if a.Commit? {
      assert a.writer in w'.writes && w'.writes[a.writer] == Write(a.worker, a.uid, false);
    }
    if p :| p in w.writes && w.writes[p].uid == u.id && !w.writes[p].cleared {
      assert p in w'.writes && w'.writes[p] == w.writes[p];
    }
  }

  lemma {:induction false} FreshUntilCleared(cfg: Config, ws: seq<World>, acts: seq<Action>, i: nat, j: nat, u: User)
    requires IsRun(cfg, ws, acts) && i <= j <= |acts| && Fresh(ws[i], u)
    requires forall k :: i <= k < j ==> !ClearsUser(ws[k], acts[k], u.id)
    ensures Fresh(ws[j], u)
    decreases j
  {
    if j == i {
    } else {
      FreshUntilCleared(cfg, ws, acts, i, j - 1, u);
      assert StepAt(cfg, ws, acts, j - 1);
      hide Fresh, ClearsUser;
      FreshSurvives(cfg, ws[j - 1], acts[j - 1], u);
    }
  }

  // No writer deletes the key of the user between the read and the set_user at step j.
  predicate GapUncleared(ws: seq<World>, acts: seq<Action>, j: nat)
    requires |ws| == |acts| + 1 && j < |acts|
  {
    acts[j].SetFetched? ==>
      var waiting := Waiting(acts, j, acts[j].worker);
      waiting != [] && waiting[0] < j && acts[waiting[0]].Fetch? ==>
        forall k :: waiting[0] <= k < j ==> !ClearsUser(ws[k], acts[k], acts[waiting[0]].uid)
  }

  lemma UnclearedGapIsFresh(cfg: Config, ws: seq<World>, acts: seq<Action>, j: nat)
    requires IsRun(cfg, ws, acts) && j < |acts| && GapUncleared(ws, acts, j)
    ensures FreshAt(cfg, ws, acts, j)
  {
    assert StepAt(cfg, ws, acts, j);
    if acts[j].SetFetched? {
      var v := acts[j].worker;
      WaitingMatches(cfg, ws, acts, j, v);
      var i, f := Waiting(acts, j, v)[0], ws[j].fetched[v][0];
      assert ReadAt(ws, acts, i, f);
      FreshUntilCleared(cfg, ws, acts, i, j, f.user);
    }
  }

  // A gap does no harm, whatever commits, reads and messages fall into it, unless a writer deletes
  // the key of that user inside it. So on every run without such a gap L2 is coherent throughout, and
  // with harmless losses both tiers are.
  lemma UnclearedGapsAreHarmless(cfg: Config, ws: seq<World>, acts: seq<Action>)
    requires IsRun(cfg, ws, acts) && forall j :: 0 <= j < |acts| ==> GapUncleared(ws, acts, j)
    ensures AllFresh(cfg, ws, acts) && L2AlwaysOk(ws)
    ensures (forall j :: 0 <= j < |acts| ==> HarmlessLoss(cfg, ws, acts, j)) ==> AlwaysCoherent(ws)
  {
    forall j | 0 <= j < |acts|
      ensures FreshAt(cfg, ws, acts, j)
    {
      UnclearedGapIsFresh(cfg, ws, acts, j);
    }
    L2CoherentExactly(cfg, ws, acts);
    CoherentExactly(cfg, ws, acts);
    if forall j :: 0 <= j < |acts| ==> HarmlessLoss(cfg, ws, acts, j) {
      forall j | 0 <= j < |acts|
        ensures HarmlessAt(cfg, ws, acts, j)
      {
        assert FreshAt(cfg, ws, acts, j) && HarmlessLoss(cfg, ws, acts, j);
      }
    }
  }

  ghost predicate HarmlessLoss(cfg: Config, ws: seq<World>, acts: seq<Action>, j: nat)
    requires |ws| == |acts| + 1 && j < |acts|
  {
    StepAt(cfg, ws, acts, j) && LossIsHarmless(ws[j], acts[j])
  }
}
