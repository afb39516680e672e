/** Who can change what: every change of a membership has its cause, and a frozen club stands still. */
module ClubAuthority {
  import opened Prelude
  import opened ClubTables
  import opened ClubRules
  import opened ClubTheorems

  predicate IsMember(t: Tables, club: ClubId, user: UserId) {
    (club, user) in t.members
  }

  /** The ways into a club: founding it, joining it while it is open to all, or being approved on a pending request of
      one's own by its owner or one of its admins, who is active and gives a reason, while it is neither suspended nor
      closed. */
  predicate LetsIn(t: Tables, op: Op, club: ClubId, user: UserId) {
    || (op.Create? && op.club == club && op.p.user == user)
    || (op.Join? && op.club == club && op.p.user == user && op.p.active && op.p.emailVerified && club in t.clubs
        && t.clubs[club].status == Published && t.clubs[club].profile.policy == OpenToAll)
    || (op.Approve? && op.club == club && club in t.clubs && 3 <= |op.reason| <= 500
        && op.p.active && t.clubs[club].status != Suspended && t.clubs[club].status != Closed
        && (op.p.user == t.clubs[club].owner
            || ((club, op.p.user) in t.members
                && (t.members[(club, op.p.user)] == Owner || t.members[(club, op.p.user)] == Admin)))
        && IsPending(t.requests, op.request, club, user))
  }

  /** What may have happened to one user's membership of one club. */
  predicate Caused(t: Tables, members: Members, op: Op, club: ClubId, user: UserId) {
    var k := (club, user);
    && (k in members && k !in t.members ==> LetsIn(t, op, club, user))
    && (k in t.members && k !in members ==>
          op.Leave? && op.club == club && op.p.user == user && club in t.clubs && user != t.clubs[club].owner)
    && (k in t.members && k in members && members[k] != t.members[k] ==>
          && (op.ChangeRole? || op.Transfer?) && op.club == club && club in t.clubs && 3 <= |op.reason| <= 500
          && op.p.active && op.p.user == t.clubs[club].owner
          && t.clubs[club].status != Suspended && t.clubs[club].status != Closed
          && (op.ChangeRole? ==> user == op.target && user != op.p.user && members[k] == op.role)
          && (op.Transfer? && user == op.target ==> members[k] == Owner)
          && (op.Transfer? && user != op.target ==> user == op.p.user && members[k] == Member))
  }

  lemma JoinCause(t: Tables, op: Op, club: ClubId, user: UserId)
    requires op.Join? && JoinRule(t, op).Ok?
    ensures Caused(t, JoinRule(t, op).value.members, op, club, user)
  {
  }

  lemma LeaveCause(t: Tables, op: Op, club: ClubId, user: UserId)
    requires op.Leave? && LeaveRule(t, op).Ok?
    ensures Caused(t, LeaveRule(t, op).value.members, op, club, user)
  {
  }

  lemma ApproveCause(t: Tables, op: Op, club: ClubId, user: UserId)
    requires op.Approve? && ApproveRule(t, op).Ok?
    ensures Caused(t, ApproveRule(t, op).value.members, op, club, user)
  {
  }

  lemma ChangeRoleCause(t: Tables, op: Op, club: ClubId, user: UserId)
    requires OwnedOnce(t.clubs, t.members) && op.ChangeRole? && ChangeRoleRule(t, op).Ok?
    ensures Caused(t, ChangeRoleRule(t, op).value.members, op, club, user)
  {
  }

  lemma TransferCause(t: Tables, op: Op, club: ClubId, user: UserId)
    requires op.Transfer? && TransferRule(t, op).Ok?
    ensures Caused(t, TransferRule(t, op).value.members, op, club, user)
  {
    TransferForm(t, op);
  }

  lemma OthersCause(t: Tables, op: Op, club: ClubId, user: UserId)
    requires Apply(t, op).Ok? && (op.Update? || op.Reject? || op.Close? || op.Moderate?)
    ensures Apply(t, op).value.members == t.members
  {
  }

  lemma EveryChangeIsCaused(t: Tables, op: Op, club: ClubId, user: UserId)
    requires Inv(t)
    ensures Caused(t, Step(t, op).members, op, club, user)
  {
    if Succeeds(t, op) {
      match op
      case Create(_, _, _, _, _, _) => assert op.club !in t.clubs;
      case Join(_, _, _, _) => JoinCause(t, op, club, user);
      case Leave(_, _) => LeaveCause(t, op, club, user);
      case Approve(_, _, _, _, _) => ApproveCause(t, op, club, user);
      case ChangeRole(_, _, _, _, _) => ChangeRoleCause(t, op, club, user);
      case Transfer(_, _, _, _, _) => TransferCause(t, op, club, user);
      case _ => OthersCause(t, op, club, user);
    }
  }

  /** Nobody becomes a member in any other way, and nobody ceases to be one but by leaving, which the owner cannot. */
  lemma MembersComeAndGo(t: Tables, op: Op, club: ClubId, user: UserId)
    requires Inv(t)
    ensures IsMember(Step(t, op), club, user) && !IsMember(t, club, user) ==> LetsIn(t, op, club, user)
    ensures IsMember(t, club, user) && !IsMember(Step(t, op), club, user) ==>
              op.Leave? && op.club == club && op.p.user == user && club in t.clubs && user != t.clubs[club].owner
  {
    EveryChangeIsCaused(t, op, club, user);
  }

  /** A member's role changes only at the hands of the owner: by a role change, which is never the owner's own, or by a
      transfer, which makes the target owner and the owner a member. */
  lemma RolesAreTheOwners(t: Tables, op: Op, club: ClubId, user: UserId)
    requires Inv(t)
    ensures var u := Step(t, op);
            IsMember(t, club, user) && IsMember(u, club, user) && u.members[(club, user)] != t.members[(club, user)] ==>
              && (op.ChangeRole? || op.Transfer?) && op.club == club && club in t.clubs && 3 <= |op.reason| <= 500
              && op.p.active && op.p.user == t.clubs[club].owner
              && t.clubs[club].status != Suspended && t.clubs[club].status != Closed
              && (|| (op.ChangeRole? && user == op.target && user != op.p.user && u.members[(club, user)] == op.role)
                  || (op.Transfer? && user == op.target && u.members[(club, user)] == Owner)
                  || (op.Transfer? && user == op.p.user && u.members[(club, user)] == Member))
  {
    EveryChangeIsCaused(t, op, club, user);
  }

  // ----- managers

  /** Approving, rejecting and updating are for active managers of a club that is neither suspended nor closed: its owner and
      its admins.  Everybody else, plain members and outsiders alike, is refused as soon as the reason passes. */
  lemma OnlyManagersDecide(t: Tables, op: Op)
    requires op.Approve? || op.Reject? || op.Update?
    ensures var manages :=
              && op.p.active && op.club in t.clubs
              && t.clubs[op.club].status != Suspended && t.clubs[op.club].status != Closed
              && (op.p.user == t.clubs[op.club].owner
                  || ((op.club, op.p.user) in t.members
                      && (t.members[(op.club, op.p.user)] == Owner || t.members[(op.club, op.p.user)] == Admin)));
            && (Succeeds(t, op) ==> manages)
            && (op.club in t.clubs && !manages && (!op.Update? ==> 3 <= |op.reason| <= 500) ==> Apply(t, op) == Err(Forbidden))
  {
  }

  /** An active admin decides any pending request of a club that is neither suspended nor closed, either way. */
  lemma AdminsDecide(t: Tables, op: Op)
    requires op.Approve? || op.Reject?
    requires op.p.active && op.club in t.clubs && t.clubs[op.club].status != Suspended && t.clubs[op.club].status != Closed
    requires (op.club, op.p.user) in t.members && t.members[(op.club, op.p.user)] == Admin
    requires op.request in t.requests && t.requests[op.request].club == op.club && t.requests[op.request].status == Pending
    requires 3 <= |op.reason| <= 500
    ensures Succeeds(t, op)
    ensures var request := Step(t, op).requests[op.request];
            && request.decidedBy == Some(op.p.user) && request.reason == Some(op.reason) && request.decidedAt == Some(op.now)
            && request.status == if op.Approve? then Approved else Rejected
  {
  }

  // ----- moderation

  /** Moderators suspend and unpublish published clubs only, and restore exactly those they took down. */
  lemma ModeratedIff(t: Tables, op: Op)
    requires Inv(t) && op.Moderate?
    ensures Succeeds(t, op) <==>
              && op.club in t.clubs
              && if op.action == Restore then t.clubs[op.club].status == Suspended || t.clubs[op.club].status == Unpublished
                 else t.clubs[op.club].status == Published
    ensures Succeeds(t, op) ==>
              var c, after := t.clubs[op.club], Step(t, op).clubs[op.club];
              && (op.action == Restore ==> after.status == Published && after.suspendedAt.None?)
              && (op.action == Unpublish ==> after.status == Unpublished && after.suspendedAt.None?)
              && (op.action == Suspend ==> after.status == Suspended && after.suspendedAt == Some(op.now))
              && after == c.(status := after.status, suspendedAt := after.suspendedAt)
  {
    if op.club in t.clubs {
      assert ClubShape(t.clubs[op.club]);
    }
  }

  /** Restoring a club undoes its suspension, or its unpublication: the club tables are as they were. */
  lemma RestoreUndoes(t: Tables, down: Op, up: Op)
    requires Inv(t) && down.Moderate? && down.action != Restore && Succeeds(t, down)
    requires up.Moderate? && up.action == Restore && up.club == down.club
    ensures Succeeds(Step(t, down), up) && Step(Step(t, down), up) == t
  {
    assert ClubShape(t.clubs[down.club]);
    assert Step(Step(t, down), up).clubs[down.club] == t.clubs[down.club];
  }

  // ----- one club at a time

  /** All that the tables hold about one club is the same. */
  ghost predicate SameClub(t: Tables, u: Tables, club: ClubId) {
    SameRow(t.clubs, u.clubs, club) && SameMembers(t.members, u.members, club) && SameRequests(t.requests, u.requests, club)
  }

  predicate SameRow(clubs: Clubs, clubs': Clubs, club: ClubId) {
    (club in clubs <==> club in clubs') && (club in clubs ==> clubs'[club] == clubs[club])
  }

  predicate SameMembers(members: Members, members': Members, club: ClubId) {
    && (forall k | k in members :: k.0 == club ==> k in members' && members'[k] == members[k])
    && (forall k | k in members' :: k.0 == club ==> k in members)
  }

  predicate SameRequests(requests: Requests, requests': Requests, club: ClubId) {
    && (forall r | r in requests :: requests[r].club == club ==> r in requests' && requests'[r] == requests[r])
    && (forall r | r in requests' :: requests'[r].club == club ==> r in requests && requests[r].club == club)
  }

  lemma SameClubTransitive(t: Tables, u: Tables, v: Tables, club: ClubId)
    requires SameClub(t, u, club) && SameClub(u, v, club)
    ensures SameClub(t, v, club)
  {
    forall k | k in v.members ensures k.0 == club ==> k in t.members {
      assert k.0 == club ==> k in u.members;
    }
    forall r | r in v.requests ensures v.requests[r].club == club ==> r in t.requests && t.requests[r].club == club {
      assert v.requests[r].club == club ==> r in u.requests;
    }
  }

  lemma JoinElsewhere(t: Tables, op: Op, club: ClubId)
    requires op.Join? && op.newId !in t.requests && JoinRule(t, op).Ok? && op.club != club
    ensures SameClub(t, JoinRule(t, op).value, club)
  {
    JoinForm(t, op);
  }

  lemma LeaveElsewhere(t: Tables, op: Op, club: ClubId)
    requires op.Leave? && LeaveRule(t, op).Ok? && op.club != club
    ensures SameClub(t, LeaveRule(t, op).value, club)
  {
  }

  lemma DecideElsewhere(t: Tables, op: Op, club: ClubId)
    requires (op.Approve? || op.Reject?) && Apply(t, op).Ok? && op.club != club
    ensures SameClub(t, Apply(t, op).value, club)
  {
  }

  lemma RolesElsewhere(t: Tables, op: Op, club: ClubId)
    requires op.ChangeRole? && ChangeRoleRule(t, op).Ok? && op.club != club
    ensures SameClub(t, ChangeRoleRule(t, op).value, club)
  {
  }

  lemma TransferElsewhere(t: Tables, op: Op, club: ClubId)
    requires op.Transfer? && TransferRule(t, op).Ok? && op.club != club
    ensures SameClub(t, TransferRule(t, op).value, club)
  {
    TransferForm(t, op);
  }

  lemma RowElsewhere(t: Tables, op: Op, club: ClubId)
    requires (op.Create? || op.Update? || op.Close? || op.Moderate?) && Apply(t, op).Ok? && op.club != club
    ensures SameClub(t, Apply(t, op).value, club)
  {
  }

  /** An operation on one club changes nothing about any other. */
  lemma OtherClubsUntouched(t: Tables, op: Op, club: ClubId)
    requires op.club != club
    ensures SameClub(t, Step(t, op), club)
  {
    if Succeeds(t, op) {
      match op
      case Join(_, _, _, _) => JoinElsewhere(t, op, club);
      case Leave(_, _) => LeaveElsewhere(t, op, club);
      case Approve(_, _, _, _, _) => DecideElsewhere(t, op, club);
      case Reject(_, _, _, _, _) => DecideElsewhere(t, op, club);
      case ChangeRole(_, _, _, _, _) => RolesElsewhere(t, op, club);
      case Transfer(_, _, _, _, _) => TransferElsewhere(t, op, club);
      case _ => RowElsewhere(t, op, club);
    }
  }

  /** While a club is suspended or closed, every request of a user on it is refused. */
  lemma FrozenRefuses(t: Tables, op: Op)
    requires op.club in t.clubs && Frozen(t.clubs[op.club]) && !op.Moderate?
    ensures !Succeeds(t, op)
  {
  }

  /** From the moment a club is suspended or closed nothing about it changes, whatever users do there and whatever anybody
      does elsewhere, until a moderator acts on it. */
  lemma {:induction false} FrozenStandsStill(t: Tables, ops: seq<Op>, club: ClubId)
    requires club in t.clubs && (t.clubs[club].status == Suspended || t.clubs[club].status == Closed)
    requires forall i | 0 <= i < |ops| :: ops[i].Moderate? ==> ops[i].club != club
    ensures SameClub(t, Exec(t, ops), club)
    decreases |ops|
  {
    if |ops| > 0 {
      var n := |ops| - 1;
      var u := Exec(t, ops[..n]);
      FrozenStandsStill(t, ops[..n], club);
      if ops[n].club != club {
        OtherClubsUntouched(u, ops[n], club);
      } else {
        FrozenRefuses(u, ops[n]);
      }
      SameClubTransitive(t, u, Exec(t, ops), club);
    }
  }

  /** A closed club stays as it is, whatever users and moderators do. */
  lemma {:induction false} ClosedIsFinal(t: Tables, ops: seq<Op>, club: ClubId)
    requires club in t.clubs && t.clubs[club].status == Closed
    ensures SameClub(t, Exec(t, ops), club)
    decreases |ops|
  {
    if |ops| > 0 {
      var n := |ops| - 1;
      ClosedIsFinal(t, ops[..n], club);
      ClosedStays(Exec(t, ops[..n]), ops[n], club);
      SameClubTransitive(t, Exec(t, ops[..n]), Exec(t, ops), club);
    }
  }

  lemma ClosedStays(t: Tables, op: Op, club: ClubId)
    requires club in t.clubs && t.clubs[club].status == Closed
    ensures SameClub(t, Step(t, op), club)
  {
    if op.club != club {
      OtherClubsUntouched(t, op, club);
    } else if !op.Moderate? {
      FrozenRefuses(t, op);
    }
  }
}
