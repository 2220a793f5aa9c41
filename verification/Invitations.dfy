// Workspace invitations (workspace_repository.py): verify, then a conditional update, interleaved.
module Invitations {
  import opened Prelude

  type Slot = (nat, nat)  // workspace and e-mail address, unique together
  type Guest = nat

  // Token texts: raw random tokens and SHA-256 digests of texts, taken as injective.
  datatype Text = Raw(n: nat) | Digest(of: Text)

  datatype Status = Invited | Active

  datatype Member = Member(status: Status, inviteToken: Option<Text>, expiresAt: Option<Time>, userId: Option<nat>)

  type Table = map<Slot, Member>

  // Lookup and update share this condition: the stored text is the digest of the presented one or
  // the presented one itself.
  predicate Answers(m: Member, presented: Text) {
    m.status == Invited && (m.inviteToken == Some(Digest(presented)) || m.inviteToken == Some(presented))
  }

  // invite_member: INSERT ... ON CONFLICT DO UPDATE
  function Invite(t: Table, slot: Slot, n: nat, expiresAt: Time, userId: Option<nat>): Table {
    t[slot := Member(Invited, Some(Digest(Raw(n))), Some(expiresAt), if slot in t then t[slot].userId else userId)]
  }

  // add_member: the status changes, a token that is still stored stays.
  function AddMember(t: Table, slot: Slot, status: Status, userId: Option<nat>): Table {
    if slot in t then
      t[slot := t[slot].(status := status, userId := if userId.Some? then userId else t[slot].userId)]
    else t[slot := Member(status, None, None, userId)]
  }

  predicate Expired(m: Member, now: Time) {
    m.expiresAt.Some? && now > m.expiresAt.value
  }

  function Activated(m: Member, userId: Option<nat>): Member {
    Member(Active, None, None, if userId.Some? then userId else m.userId)
  }

  // The conditional update of accept_invitation, on every row that answers.
  function Accept(t: Table, presented: Text, userId: Option<nat>): Table {
    map slot | slot in t :: if Answers(t[slot], presented) then Activated(t[slot], userId) else t[slot]
  }

  ghost predicate AnyAnswers(t: Table, presented: Text) {
    exists slot :: slot in t && Answers(t[slot], presented)
  }

  class WorkspaceMembers {
    var rows: Table

    // get_invitation_by_token: the row found, or None when none answers.
    method GetInvitation(presented: Text) returns (r: Option<Slot>)
      ensures r.Some? ==> r.value in rows && Answers(rows[r.value], presented)
      ensures r.None? ==> !AnyAnswers(rows, presented)
    {
      if slot :| slot in rows && rows[slot].status == Invited &&
                 (rows[slot].inviteToken == Some(Digest(presented)) || rows[slot].inviteToken == Some(presented)) {
        return Some(slot);
      }
      return None;
    }

    method AcceptUpdate(presented: Text, userId: Option<nat>) returns (accepted: bool)
      modifies this
      ensures accepted <==> AnyAnswers(old(rows), presented)
      ensures rows == Accept(old(rows), presented, userId)
    {
      var before := rows;
      var matching := set slot | slot in before && Answers(before[slot], presented);
      rows := map slot | slot in before :: if slot in matching then Activated(before[slot], userId) else before[slot];
      accepted := matching != {};
      if slot :| slot in before && Answers(before[slot], presented) {
        assert slot in matching;
      }
    }

    method AcceptInvitation(presented: Text, userId: Option<nat>, now: Time) returns (accepted: bool)
      modifies this
      ensures accepted ==> rows == Accept(old(rows), presented, userId)
      ensures accepted ==>
        exists slot :: slot in old(rows) && Answers(old(rows)[slot], presented) && !Expired(old(rows)[slot], now)
      ensures !accepted ==> rows == old(rows)
      ensures (exists slot :: slot in old(rows) && Answers(old(rows)[slot], presented)) &&
              (forall slot | slot in old(rows) && Answers(old(rows)[slot], presented) :: !Expired(old(rows)[slot], now))
              ==> accepted
    {
      var found := GetInvitation(presented);
      if found.None? || Expired(rows[found.value], now) {
        return false;
      }
      accepted := AcceptUpdate(presented, userId);
    }
  }

  // ---------- interleaved guests ----------

  // A text that passed the checks, with the time of the check.
  datatype Seen = Seen(presented: Text, at: Time)

  // `deadlines` and `accepted` record history: the expiry of every invitation issued, and the
  // acceptances made.
  datatype State = State(
    rows: Table,
    checked: map<Guest, Seen>,
    deadlines: map<nat, Time>,
    accepted: seq<Seen>,
    now: Time)

  datatype Step =
    | Issue(slot: Slot, n: nat, expiresAt: Time, userId: Option<nat>)
    | Add(slot: Slot, status: Status, userId: Option<nat>)
    | Remove(slot: Slot)
    | Check(guest: Guest, presented: Text, found: Slot)
    | Finish(guest: Guest, userId: Option<nat>)
    | Wait(to: Time)

  predicate Enabled(s: State, a: Step) {
    match a
    case Issue(_, n, _, _) => n !in s.deadlines
    case Add(_, _, _) => true
    case Remove(_) => true
    case Check(guest, presented, found) =>
      guest !in s.checked && found in s.rows && Answers(s.rows[found], presented) && !Expired(s.rows[found], s.now)
    case Finish(guest, _) => guest in s.checked
    case Wait(to) => s.now <= to
  }

  ghost function Apply(s: State, a: Step): State
    requires Enabled(s, a)
  {
    match a
    case Issue(slot, n, expiresAt, userId) =>
      s.(rows := Invite(s.rows, slot, n, expiresAt, userId), deadlines := s.deadlines[n := expiresAt])
    case Add(slot, status, userId) => s.(rows := AddMember(s.rows, slot, status, userId))
    case Remove(slot) => s.(rows := s.rows - {slot})
    case Check(guest, presented, _) => s.(checked := s.checked[guest := Seen(presented, s.now)])
    case Finish(guest, userId) =>
      var seen := s.checked[guest];
      s.(rows := Accept(s.rows, seen.presented, userId), checked := s.checked - {guest},
         accepted := if AnyAnswers(s.rows, seen.presented) then s.accepted + [seen] else s.accepted)
    case Wait(to) => s.(now := to)
  }

  ghost predicate Possible(s: State, steps: seq<Step>)
    decreases |steps|
  {
    steps == [] || (Enabled(s, steps[0]) && Possible(Apply(s, steps[0]), steps[1..]))
  }

  ghost function Run(s: State, steps: seq<Step>): State
    requires Possible(s, steps)
    decreases |steps|
  {
    if steps == [] then s else Run(Apply(s, steps[0]), steps[1..])
  }

  predicate Initial(s: State) {
    s.rows == map[] && s.checked == map[] && s.deadlines == map[] && s.accepted == []
  }

  // The invitation that a presented text stands for.
  function Invitation(p: Text): nat {
    match p case Raw(n) => n case Digest(q) => Invitation(q)
  }

  // The text was checked before its invitation expired.
  predicate InTime(s: State, seen: Seen) {
    var n := Invitation(seen.presented);
    n in s.deadlines && seen.at <= s.deadlines[n]
  }

  ghost predicate Inv(s: State) {
    && (forall slot <- s.rows :: s.rows[slot].inviteToken.Some? ==>
          var n := Invitation(s.rows[slot].inviteToken.value);
          && s.rows[slot].inviteToken.value == Digest(Raw(n))
          && n in s.deadlines && s.rows[slot].expiresAt == Some(s.deadlines[n]))
    && (forall a, b | a in s.rows && b in s.rows && s.rows[a].inviteToken.Some? ::
          s.rows[a].inviteToken == s.rows[b].inviteToken ==> a == b)
    && (forall g <- s.checked :: InTime(s, s.checked[g]))
    && (forall p <- s.accepted :: InTime(s, p))
    && (forall p <- s.accepted, slot <- s.rows ::
          s.rows[slot].inviteToken != Some(Digest(Raw(Invitation(p.presented)))))
    && (forall i, j | 0 <= i < j < |s.accepted| ::
          Invitation(s.accepted[i].presented) != Invitation(s.accepted[j].presented))
  }

  // A row answers only its own invitation.
  lemma AnswersItsInvitation(s: State, slot: Slot, presented: Text)
    requires Inv(s) && slot in s.rows && Answers(s.rows[slot], presented)
    ensures s.rows[slot].inviteToken == Some(Digest(Raw(Invitation(presented))))
    ensures forall other <- s.rows :: Answers(s.rows[other], presented) ==> other == slot
  {
  }

  lemma FinishKeepsInv(s: State, a: Step)
    requires Inv(s) && a.Finish? && Enabled(s, a)
    ensures Inv(Apply(s, a))
  {
    var seen, s' := s.checked[a.guest], Apply(s, a);
    if slot :| slot in s.rows && Answers(s.rows[slot], seen.presented) {
      AnswersItsInvitation(s, slot, seen.presented);
      assert s'.accepted == s.accepted + [seen];
      assert s'.rows[slot].inviteToken.None?;
    }
  }

  lemma IssueKeepsInv(s: State, a: Step)
    requires Inv(s) && a.Issue? && Enabled(s, a)
    ensures Inv(Apply(s, a))
  {
  }

  lemma AddKeepsInv(s: State, a: Step)
    requires Inv(s) && a.Add? && Enabled(s, a)
    ensures Inv(Apply(s, a))
  {
  }

  lemma StepKeepsInv(s: State, a: Step)
    requires Inv(s) && Enabled(s, a)
    ensures Inv(Apply(s, a))
  {
    match a
    case Issue(_, _, _, _) => IssueKeepsInv(s, a);
    case Add(_, _, _) => AddKeepsInv(s, a);
    case Finish(_, _) => FinishKeepsInv(s, a);
    case _ =>
  }

  lemma {:induction false} RunKeepsInv(s: State, steps: seq<Step>)
    requires Inv(s) && Possible(s, steps)
    ensures Inv(Run(s, steps))
    decreases |steps|
  {
    if steps == [] {
    } else {
      StepKeepsInv(s, steps[0]);
      RunKeepsInv(Apply(s, steps[0]), steps[1..]);
    }
  }

  // Single use: whatever guests, re-invitations, additions and removals interleave, an issued
  // invitation is accepted at most once, presented raw or as its stored digest.
  lemma EachInvitationAcceptedOnce(s0: State, steps: seq<Step>, i: nat, j: nat)
    requires Initial(s0) && Possible(s0, steps)
    requires var acc := Run(s0, steps).accepted;
      i < |acc| && j < |acc| && Invitation(acc[i].presented) == Invitation(acc[j].presented)
    ensures i == j
  {
    RunKeepsInv(s0, steps);
  }

  // A new invitation can be accepted until it expires, by the token that was issued.
  lemma NewInvitationWorks(s0: State, steps: seq<Step>, slot: Slot, n: nat, expiresAt: Time, owner: Option<nat>,
                           guest: Guest, userId: Option<nat>)
    requires Initial(s0) && Possible(s0, steps)
    requires var s := Run(s0, steps);
      n !in s.deadlines && s.now <= expiresAt && guest !in s.checked
    ensures var s := Run(s0, steps);
      var s1 := Apply(s, Issue(slot, n, expiresAt, owner));
      && Enabled(s1, Check(guest, Raw(n), slot))
      && var s2 := Apply(s1, Check(guest, Raw(n), slot));
         && Enabled(s2, Finish(guest, userId))
         && var s3 := Apply(s2, Finish(guest, userId));
            && s3.accepted == s.accepted + [Seen(Raw(n), s.now)]
            && slot in s3.rows && s3.rows[slot].status == Active
            && (userId.Some? ==> s3.rows[slot].userId == userId)
  {
    var s1 := Apply(Run(s0, steps), Issue(slot, n, expiresAt, owner));
    assert Answers(s1.rows[slot], Raw(n));
  }

  // Every accepted text was checked before its invitation expired.
  lemma AcceptedInTime(s0: State, steps: seq<Step>, i: nat)
    requires Initial(s0) && Possible(s0, steps) && i < |Run(s0, steps).accepted|
    ensures InTime(Run(s0, steps), Run(s0, steps).accepted[i])
  {
    RunKeepsInv(s0, steps);
  }

  // An acceptance changes exactly the row of its invitation: that member becomes active, keeps or
  // gains its user, and its token is gone. The guest had checked before that row expires. A guest
  // whose invitation was replaced changes nothing.
  lemma AcceptanceChangesOneRow(s0: State, steps: seq<Step>, guest: Guest, userId: Option<nat>)
    requires Initial(s0) && Possible(s0, steps) && guest in Run(s0, steps).checked
    ensures var s := Run(s0, steps);
      var seen, s' := s.checked[guest], Apply(s, Finish(guest, userId));
      if AnyAnswers(s.rows, seen.presented) then
        exists slot :: slot in s.rows
          && s.rows[slot].inviteToken == Some(Digest(Raw(Invitation(seen.presented))))
          && (s.rows[slot].expiresAt.Some? && seen.at <= s.rows[slot].expiresAt.value)
          && s'.rows == s.rows[slot := s'.rows[slot]] && s'.accepted == s.accepted + [seen]
          && s'.rows[slot].status == Active && s'.rows[slot].inviteToken == None && s'.rows[slot].expiresAt == None
          && s'.rows[slot].userId == if userId.Some? then userId else s.rows[slot].userId
      else s'.rows == s.rows && s'.accepted == s.accepted
  {
    RunKeepsInv(s0, steps);
    var s := Run(s0, steps);
    var seen, s' := s.checked[guest], Apply(s, Finish(guest, userId));
    if slot :| slot in s.rows && Answers(s.rows[slot], seen.presented) {
      AnswersItsInvitation(s, slot, seen.presented);
      assert s'.rows == s.rows[slot := Activated(s.rows[slot], userId)];
    } else {
      assert s'.rows == s.rows;
    }
  }
}
