// The in-memory session store (session_store.py): sessions by id and session ids by user.
module Sessions {
  import opened Prelude

  type SessionId = nat
  type UserId = string

  datatype Session = Session(user: UserId, createdAt: Time, data: map<string, string>)

  type Table = map<SessionId, Session>
  type Index = map<UserId, set<SessionId>>

  function IdsOf(index: Index, u: UserId): set<SessionId> {
    if u in index then index[u] else {}
  }

  // The sessions a user owns, read off the session table.
  function Owned(sessions: Table, u: UserId): set<SessionId> {
    set sid | sid in sessions && sessions[sid].user == u
  }

  // The index is the exact inverse of ownership. For the empty user id it only covers it, because
  // delete_session skips the index for a false user id.
  ghost predicate IndexOk(sessions: Table, index: Index) {
    && (forall u :: u != "" ==> IdsOf(index, u) == Owned(sessions, u))
    && Owned(sessions, "") <= IdsOf(index, "")
    && (forall sid <- IdsOf(index, "") :: sid in sessions ==> sessions[sid].user == "")
  }

  // Stated from a session's side: it is in its owner's set and in no other.
  lemma StoredIffInOwnersSet(sessions: Table, index: Index, sid: SessionId, u: UserId)
    requires IndexOk(sessions, index) && u != ""
    ensures sid in IdsOf(index, u) <==> sid in sessions && sessions[sid].user == u
    ensures sid in sessions ==> forall v :: sid in IdsOf(index, v) <==> v == sessions[sid].user
  {
  }

  lemma RemoveOne(sessions: Table, index: Index, sid: SessionId)
    requires IndexOk(sessions, index) && sid in sessions
    ensures var u := sessions[sid].user;
      IndexOk(sessions - {sid}, if u != "" && u in index then index[u := index[u] - {sid}] else index)
  {
    var u := sessions[sid].user;
    var index' := if u != "" && u in index then index[u := index[u] - {sid}] else index;
    forall v | v != ""
      ensures IdsOf(index', v) == Owned(sessions - {sid}, v)
    {
      assert Owned(sessions - {sid}, v) == Owned(sessions, v) - {sid};
      assert v != u ==> sid !in Owned(sessions, v);
    }
  }

  class SessionStore {
    var inMemorySessions: Table
    var inMemoryUserIndex: Index

    constructor ()
      ensures Valid() && inMemorySessions == map[] && inMemoryUserIndex == map[]
    {
      inMemorySessions, inMemoryUserIndex := map[], map[];
    }

    ghost predicate Valid()
      reads this
    {
      IndexOk(inMemorySessions, inMemoryUserIndex)
    }

    // The session id is a fresh random token.
    method CreateSession(sid: SessionId, user: UserId, data: map<string, string>, now: Time)
      requires Valid()
      requires sid !in inMemorySessions && forall u <- inMemoryUserIndex :: sid !in inMemoryUserIndex[u]
      modifies this
      ensures Valid()
      ensures inMemorySessions == old(inMemorySessions)[sid := Session(user, now, data)]
    {
      ghost var before := inMemorySessions;
      inMemorySessions := inMemorySessions[sid := Session(user, now, data)];
      var ids := if user in inMemoryUserIndex then inMemoryUserIndex[user] else {};
      inMemoryUserIndex := inMemoryUserIndex[user := ids + {sid}];
      forall u
        ensures Owned(inMemorySessions, u) == Owned(before, u) + (if u == user then {sid} else {})
      {
      }
    }

    method UpdateSessionData(sid: SessionId, data: map<string, string>) returns (updated: bool)
      requires Valid()
      modifies this
      ensures Valid()
      ensures updated <==> sid in old(inMemorySessions)
      ensures inMemoryUserIndex == old(inMemoryUserIndex)
      ensures inMemorySessions ==
        if updated then
          var before := old(inMemorySessions)[sid];
          old(inMemorySessions)[sid := before.(data := before.data + data)]
        else old(inMemorySessions)
    {
      if sid !in inMemorySessions {
        return false;
      }
      ghost var before := inMemorySessions;
      var session := inMemorySessions[sid];
      inMemorySessions := inMemorySessions[sid := session.(data := session.data + data)];
      forall u
        ensures Owned(inMemorySessions, u) == Owned(before, u)
      {
      }
      return true;
    }

    method DeleteSession(sid: SessionId) returns (deleted: bool)
      requires Valid()
      modifies this
      ensures Valid()
      ensures deleted <==> sid in old(inMemorySessions)
      ensures inMemorySessions == old(inMemorySessions) - {sid}
      // The one case where the index is not an exact inverse afterwards.
      ensures deleted && old(inMemorySessions)[sid].user == "" ==> sid in IdsOf(inMemoryUserIndex, "")
    {
      if sid !in inMemorySessions {
        return false;
      }
      RemoveOne(inMemorySessions, inMemoryUserIndex, sid);
      var user := inMemorySessions[sid].user;
      if user != "" && user in inMemoryUserIndex {
        inMemoryUserIndex := inMemoryUserIndex[user := inMemoryUserIndex[user] - {sid}];
      }
      inMemorySessions := inMemorySessions - {sid};
      return true;
    }

    // The deletion loop over a copy of the user's set.
    method DeleteEach(user: UserId, keep: Option<SessionId>) returns (count: nat)
      requires user in inMemoryUserIndex
      modifies this
      ensures var gone := old(inMemoryUserIndex)[user] - Kept(keep);
        && inMemorySessions == old(inMemorySessions) - gone
        && inMemoryUserIndex == old(inMemoryUserIndex)[user := old(inMemoryUserIndex)[user] - gone]
        && count == |gone|
    {
      count := 0;
      ghost var sessions, index := inMemorySessions, inMemoryUserIndex;
      var sids := inMemoryUserIndex[user];
      var left := sids;
      ghost var kept := Kept(keep);
      ghost var done: set<SessionId> := {};
      while left != {}
        invariant left <= sids && user in inMemoryUserIndex
        invariant forall sid :: sid in done <==> sid in sids && sid !in left && sid !in kept
        invariant inMemorySessions == sessions - done
        invariant inMemoryUserIndex[user] == sids - done
        invariant inMemoryUserIndex == index[user := inMemoryUserIndex[user]]
        invariant count == |done|
        decreases left
      {
        var sid :| sid in left;
        left := left - {sid};
        if keep != Some(sid) {
          assert sid !in done && sid !in kept;
          done := done + {sid};
          inMemorySessions := inMemorySessions - {sid};
          inMemoryUserIndex := inMemoryUserIndex[user := inMemoryUserIndex[user] - {sid}];
          count := count + 1;
        }
      }
      assert done == sids - kept;
    }

    // Removes exactly the user's sessions other than `keep`, leaves every other session as it was,
    // and returns the number removed.
    method DeleteAllUserSessions(user: UserId, keep: Option<SessionId>) returns (count: nat)
      requires Valid()
      modifies this
      ensures Valid()
      ensures inMemorySessions == old(inMemorySessions) - (Owned(old(inMemorySessions), user) - Kept(keep))
      ensures user != "" ==> count == |Owned(old(inMemorySessions), user) - Kept(keep)|
      ensures count == |IdsOf(old(inMemoryUserIndex), user) - Kept(keep)|
    {
      ghost var sessions, index := inMemorySessions, inMemoryUserIndex;
      if user !in inMemoryUserIndex {
        assert IdsOf(index, user) == {} && Owned(sessions, user) == {};
        return 0;
      }
      hide IndexOk, Owned;
      count := DeleteEach(user, keep);
      ghost var gone := index[user] - Kept(keep);
      RemoveMany(sessions, index, user, gone);
      OwnedAmong(sessions, index, user, Kept(keep));
    }
  }

  function Kept(keep: Option<SessionId>): set<SessionId> {
    if keep.Some? then {keep.value} else {}
  }

  lemma OwnedAmong(sessions: Table, index: Index, user: UserId, kept: set<SessionId>)
    requires IndexOk(sessions, index) && user in index
    ensures sessions - (index[user] - kept) == sessions - (Owned(sessions, user) - kept)
    ensures user != "" ==> index[user] == Owned(sessions, user)
  {
  }

  lemma RemoveMany(sessions: Table, index: Index, user: UserId, gone: set<SessionId>)
    requires IndexOk(sessions, index) && user in index && gone <= index[user]
    ensures IndexOk(sessions - gone, index[user := index[user] - gone])
    ensures forall sid <- gone :: sid in sessions ==> sessions[sid].user == user
    ensures user != "" ==> gone <= sessions.Keys
  {
    forall sid <- gone
      ensures sid in sessions ==> sessions[sid].user == user
      ensures user != "" ==> sid in sessions
    {
      assert sid in IdsOf(index, user);
      assert user != "" ==> sid in Owned(sessions, user);
    }
    forall v
      ensures Owned(sessions - gone, v) == if v == user then Owned(sessions, v) - gone else Owned(sessions, v)
    {
    }
  }
}
