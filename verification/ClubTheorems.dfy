/** What holds of every sequence of club operations. */
module ClubTheorems {
  import opened Prelude
  import opened ClubTables
  import opened ClubRules

  // ----- the invariant

  /** The owner column and the owner row name the same, single user. */
  predicate OwnedOnce(clubs: Clubs, members: Members) {
    && (forall c | c in clubs :: (c, clubs[c].owner) in members && members[(c, clubs[c].owner)] == Owner)
    && (forall k | k in members :: k.0 in clubs && (members[k] == Owner ==> k.1 == clubs[k.0].owner))
  }

  predicate OnePending(requests: Requests) {
    forall r, q | r in requests && q in requests && r != q && requests[r].status == Pending
                  && requests[q].status == Pending ::
      requests[r].club != requests[q].club || requests[r].user != requests[q].user
  }

  /** A request is decided exactly when it names who decided it, when and why. */
  predicate RequestShape(r: JoinRequest) {
    if r.status == Approved || r.status == Rejected
    then r.decidedBy.Some? && r.decidedAt.Some? && r.reason.Some?
    else r.decidedBy.None? && r.decidedAt.None? && r.reason.None?
  }

  /** A draft lacks a required field; what is or was public lacks none. */
  predicate ClubShape(c: Club) {
    && c.revision >= 1
    && (c.status == Draft ==> MissingFields(c.profile) != [] && c.publishedAt.None?)
    && (c.status == Published || c.status == Unpublished || c.status == Suspended ==>
          MissingFields(c.profile) == [] && c.publishedAt.Some?)
    && (c.closedAt.Some? <==> c.status == Closed)
    && (c.suspendedAt.Some? <==> c.status == Suspended)
  }

  predicate ClubShapes(clubs: Clubs) {
    forall c | c in clubs :: ClubShape(clubs[c])
  }

  predicate RequestShapes(clubs: Clubs, requests: Requests) {
    forall r | r in requests :: requests[r].club in clubs && RequestShape(requests[r])
  }

  predicate SlugsUnique(clubs: Clubs) {
    forall a, b | a in clubs && b in clubs && a != b :: clubs[a].profile.slug != clubs[b].profile.slug
  }

  predicate Inv(t: Tables) {
    && OwnedOnce(t.clubs, t.members) && OnePending(t.requests)
    && ClubShapes(t.clubs) && RequestShapes(t.clubs, t.requests) && SlugsUnique(t.clubs)
  }

  /** One club row changes, but not its owner. */
  lemma OneClubKeeps(t: Tables, club: ClubId, c: Club)
    requires Inv(t) && club in t.clubs && c.owner == t.clubs[club].owner && ClubShape(c)
    requires c.profile.slug == t.clubs[club].profile.slug || !SlugTaken(t.clubs, c.profile.slug, club)
    ensures Inv(t.(clubs := t.clubs[club := c]))
  {
  }

  /** Memberships change, but no owner row is added or removed. */
  lemma MembersKeep(t: Tables, members: Members)
    requires Inv(t) && forall k | k in members :: k.0 in t.clubs
    requires forall k | k in t.members && t.members[k] == Owner :: k in members && members[k] == Owner
    requires forall k | k in members && members[k] == Owner :: k in t.members && t.members[k] == Owner
    ensures Inv(t.(members := members))
  {
  }

  /** Requests keep their club and user, none becomes pending, and the changed ones have their shape. */
  lemma RequestsKeep(t: Tables, requests: Requests)
    requires Inv(t) && requests.Keys == t.requests.Keys
    requires forall r | r in requests ::
               && requests[r].club == t.requests[r].club && requests[r].user == t.requests[r].user
               && RequestShape(requests[r]) && (requests[r].status == Pending ==> t.requests[r].status == Pending)
    ensures Inv(t.(requests := requests))
  {
  }

  lemma FirstOwnerKeeps(clubs: Clubs, members: Members, club: ClubId, c: Club)
    requires OwnedOnce(clubs, members) && club !in clubs
    ensures OwnedOnce(clubs[club := c], members[(club, c.owner) := Owner])
  {
    var clubs', members' := clubs[club := c], members[(club, c.owner) := Owner];
    forall k | k in members' ensures k.0 in clubs' && (members'[k] == Owner ==> k.1 == clubs'[k.0].owner) {
      assert k != (club, c.owner) ==> k in members && k.0 != club;
    }
  }

  lemma CreateKeeps(t: Tables, club: ClubId, c: Club)
    requires Inv(t) && club !in t.clubs && ClubShape(c) && !SlugTaken(t.clubs, c.profile.slug, club)
    ensures Inv(t.(clubs := t.clubs[club := c], members := t.members[(club, c.owner) := Owner]))
  {
    FirstOwnerKeeps(t.clubs, t.members, club, c);
  }

  lemma UpdateKeeps(t: Tables, op: Op)
    requires Inv(t) && op.Update? && UpdateRule(t, op).Ok?
    ensures Inv(UpdateRule(t, op).value)
  {
    var u := UpdateRule(t, op).value;
    assert ClubShape(t.clubs[op.club]);
    OneClubKeeps(t, op.club, u.clubs[op.club]);
    assert u == t.(clubs := t.clubs[op.club := u.clubs[op.club]]);
  }

  lemma NewRequestKeeps(t: Tables, club: ClubId, user: UserId, message: Option<string>, newId: RequestId)
    requires Inv(t) && club in t.clubs && newId !in t.requests
    ensures Inv(t.(requests := CreateOrGetPending(t.requests, club, user, message, newId)))
  {
    var u := t.(requests := CreateOrGetPending(t.requests, club, user, message, newId));
    if u.requests != t.requests {
      forall r, q | r in u.requests && q in u.requests && r != q && u.requests[r].status == Pending
                    && u.requests[q].status == Pending
        ensures u.requests[r].club != u.requests[q].club || u.requests[r].user != u.requests[q].user
      {
        assert r in t.requests ==> !IsPending(t.requests, r, club, user);
        assert q in t.requests ==> !IsPending(t.requests, q, club, user);
      }
    }
  }

  lemma HandOverKeeps(clubs: Clubs, members: Members, club: ClubId, current: UserId, target: UserId)
    requires OwnedOnce(clubs, members) && club in clubs && clubs[club].owner == current
    requires (club, target) in members && target != current
    ensures OwnedOnce(HandOver(clubs, club, current, target), members[(club, current) := Member][(club, target) := Owner])
  {
  }

  lemma TransferForm(t: Tables, op: Op)
    requires op.Transfer? && TransferRule(t, op).Ok?
    ensures op.club in t.clubs && t.clubs[op.club].owner == op.p.user
    ensures (op.club, op.target) in t.members && op.target != op.p.user
    ensures TransferRule(t, op).value ==
            t.(members := t.members[(op.club, op.p.user) := Member][(op.club, op.target) := Owner],
               clubs := HandOver(t.clubs, op.club, op.p.user, op.target))
  {
  }

  lemma HandOverShapes(clubs: Clubs, requests: Requests, club: ClubId, current: UserId, target: UserId)
    requires ClubShapes(clubs) && RequestShapes(clubs, requests) && SlugsUnique(clubs)
    ensures var handed := HandOver(clubs, club, current, target);
            ClubShapes(handed) && RequestShapes(handed, requests) && SlugsUnique(handed)
  {
    if club in clubs {
      assert ClubShape(clubs[club]);
    }
  }

  lemma TransferKeeps(t: Tables, op: Op)
    requires Inv(t) && op.Transfer? && TransferRule(t, op).Ok?
    ensures Inv(TransferRule(t, op).value)
  {
    TransferForm(t, op);
    HandOverKeeps(t.clubs, t.members, op.club, op.p.user, op.target);
    HandOverShapes(t.clubs, t.requests, op.club, op.p.user, op.target);
  }

  lemma DecideKeeps(t: Tables, r: RequestId, status: RequestStatus, actor: UserId, reason: string, now: Time)
    requires Inv(t) && (status == Approved || status == Rejected) && Decide(t.requests, r, status, actor, reason, now).Some?
    ensures Inv(t.(requests := Decide(t.requests, r, status, actor, reason, now).value))
  {
    RequestsKeep(t, Decide(t.requests, r, status, actor, reason, now).value);
  }

  lemma AddKeeps(t: Tables, club: ClubId, user: UserId)
    requires Inv(t) && club in t.clubs
    ensures Inv(t.(members := AddMember(t.members, club, user)))
  {
    MembersKeep(t, AddMember(t.members, club, user));
  }

  lemma ApproveKeeps(t: Tables, op: Op)
    requires Inv(t) && op.Approve? && ApproveRule(t, op).Ok?
    ensures Inv(ApproveRule(t, op).value)
  {
    var u := ApproveRule(t, op).value;
    if u != t {
      DecideKeeps(t, op.request, Approved, op.p.user, op.reason, op.now);
      AddKeeps(t.(requests := u.requests), op.club, t.requests[op.request].user);
    }
  }

  lemma RejectKeeps(t: Tables, op: Op)
    requires Inv(t) && op.Reject? && RejectRule(t, op).Ok?
    ensures Inv(RejectRule(t, op).value)
  {
    if RejectRule(t, op).value != t {
      DecideKeeps(t, op.request, Rejected, op.p.user, op.reason, op.now);
    }
  }

  lemma JoinForm(t: Tables, op: Op)
    requires op.Join? && JoinRule(t, op).Ok?
    ensures op.club in t.clubs
    ensures JoinRule(t, op).value in
              {t, t.(members := AddMember(t.members, op.club, op.p.user)),
               t.(requests := CreateOrGetPending(t.requests, op.club, op.p.user, op.message, op.newId))}
  {
  }

  lemma JoinKeeps(t: Tables, op: Op)
    requires Inv(t) && op.Join? && op.newId !in t.requests && JoinRule(t, op).Ok?
    ensures Inv(JoinRule(t, op).value)
  {
    JoinForm(t, op);
    AddKeeps(t, op.club, op.p.user);
    NewRequestKeeps(t, op.club, op.p.user, op.message, op.newId);
  }

  lemma CancelKeeps(t: Tables, club: ClubId, user: UserId)
    requires Inv(t)
    ensures Inv(t.(requests := CancelPending(t.requests, club, user)))
  {
    RequestsKeep(t, CancelPending(t.requests, club, user));
  }

  lemma RemoveKeeps(t: Tables, club: ClubId, user: UserId)
    requires Inv(t) && (club, user) in t.members && t.members[(club, user)] != Owner
    ensures Inv(t.(members := RemoveMember(t.members, club, user)))
  {
    MembersKeep(t, RemoveMember(t.members, club, user));
  }

  lemma LeaveKeeps(t: Tables, op: Op)
    requires Inv(t) && op.Leave? && LeaveRule(t, op).Ok?
    ensures Inv(LeaveRule(t, op).value)
  {
    CancelKeeps(t, op.club, op.p.user);
    if (op.club, op.p.user) in t.members && t.members[(op.club, op.p.user)] != Owner {
      RemoveKeeps(t, op.club, op.p.user);
    }
  }

  lemma SetRoleKeeps(t: Tables, club: ClubId, user: UserId, role: Role)
    requires Inv(t) && role != Owner && SetRole(t.members, club, user, role).Some?
    ensures Inv(t.(members := SetRole(t.members, club, user, role).value))
  {
    MembersKeep(t, SetRole(t.members, club, user, role).value);
  }

  lemma ChangeRoleKeeps(t: Tables, op: Op)
    requires Inv(t) && op.ChangeRole? && op.role != Owner && ChangeRoleRule(t, op).Ok?
    ensures Inv(ChangeRoleRule(t, op).value)
  {
    if ChangeRoleRule(t, op).value != t {
      SetRoleKeeps(t, op.club, op.target, op.role);
    }
  }

  lemma CloseKeeps(t: Tables, op: Op)
    requires Inv(t) && op.Close? && CloseRule(t, op).Ok?
    ensures Inv(CloseRule(t, op).value)
  {
    assert ClubShape(t.clubs[op.club]);
    OneClubKeeps(t, op.club, CloseRule(t, op).value.clubs[op.club]);
  }

  lemma ModerateForm(t: Tables, op: Op)
    requires op.Moderate? && ModerateRule(t, op).Ok? && ClubShape(t.clubs[op.club])
    ensures var u := ModerateRule(t, op).value;
            && op.club in u.clubs && u == t.(clubs := t.clubs[op.club := u.clubs[op.club]])
            && u.clubs[op.club].profile == t.clubs[op.club].profile && u.clubs[op.club].owner == t.clubs[op.club].owner
            && ClubShape(u.clubs[op.club])
  {
  }

  lemma ModerateKeeps(t: Tables, op: Op)
    requires Inv(t) && op.Moderate? && ModerateRule(t, op).Ok?
    ensures Inv(ModerateRule(t, op).value)
  {
    assert ClubShape(t.clubs[op.club]);
    ModerateForm(t, op);
    OneClubKeeps(t, op.club, ModerateRule(t, op).value.clubs[op.club]);
  }

  lemma StepKeeps(t: Tables, op: Op)
    requires Inv(t)
    ensures Inv(Step(t, op))
  {
    if WellFormed(t, op) && Apply(t, op).Ok? {
      match op
      case Create(_, club, _, _, _, _) => CreateKeeps(t, club, CreateRule(t, op).value.clubs[club]);
      case Update(_, _, _, _, _) => UpdateKeeps(t, op);
      case Join(_, _, _, _) => JoinKeeps(t, op);
      case Leave(_, _) => LeaveKeeps(t, op);
      case Approve(_, _, _, _, _) => ApproveKeeps(t, op);
      case Reject(_, _, _, _, _) => RejectKeeps(t, op);
      case ChangeRole(_, _, _, _, _) => ChangeRoleKeeps(t, op);
      case Transfer(_, _, _, _, _) => TransferKeeps(t, op);
      case Close(_, _, _, _) => CloseKeeps(t, op);
      case Moderate(_, _, _) => ModerateKeeps(t, op);
    }
  }

  lemma {:induction false} Reachable(ops: seq<Op>)
    ensures Inv(Exec(EMPTY, ops))
    decreases |ops|
  {
    if ops != [] {
      Reachable(ops[..|ops| - 1]);
      StepKeeps(Exec(EMPTY, ops[..|ops| - 1]), ops[|ops| - 1]);
    }
  }

  /** Whether the operation was made and succeeded. */
  predicate Succeeds(t: Tables, op: Op) {
    WellFormed(t, op) && Apply(t, op).Ok?
  }

  // ----- ownership

  /** In every reachable state a club has exactly one owner row, and it belongs to the owner column. */
  lemma OneOwner(ops: seq<Op>, club: ClubId, user: UserId)
    requires club in Exec(EMPTY, ops).clubs
    ensures var t := Exec(EMPTY, ops);
            (club, user) in t.members && t.members[(club, user)] == Owner <==> user == t.clubs[club].owner
  {
    Reachable(ops);
  }

  /** A transfer succeeds exactly when its guards pass: neither the unchecked updates nor the promotion can miss. */
  lemma TransferSucceedsIffAllowed(ops: seq<Op>, op: Op)
    requires op.Transfer?
    ensures var t := Exec(EMPTY, ops);
            && (TransferRule(t, op).Ok? <==>
                  && 3 <= |op.reason| <= 500
                  && op.p.active && op.club in t.clubs && t.clubs[op.club].owner == op.p.user
                  && t.clubs[op.club].status != Suspended && t.clubs[op.club].status != Closed
                  && (op.club, op.target) in t.members && op.target != op.p.user && op.eligible)
            && (TransferRule(t, op) == Err(Conflict) ==> op.target == op.p.user)
  {
    Reachable(ops);
  }

  /** A transfer moves ownership and nothing else: the same members, two roles, the owner column, one revision. */
  lemma TransferMovesOwnership(ops: seq<Op>, op: Op)
    requires op.Transfer? && TransferRule(Exec(EMPTY, ops), op).Ok?
    ensures var t := Exec(EMPTY, ops); var u := TransferRule(t, op).value; var c := t.clubs[op.club];
            && u.requests == t.requests
            && t.members[(op.club, op.p.user)] == Owner && (op.club, op.target) in t.members
            && u.members == t.members[(op.club, op.p.user) := Member][(op.club, op.target) := Owner]
            && op.club in u.clubs && u.clubs == t.clubs[op.club := u.clubs[op.club]]
            && u.clubs[op.club] == c.(owner := op.target, revision := c.revision + 1)
  {
    Reachable(ops);
    TransferFrame(Exec(EMPTY, ops), op);
  }

  lemma TransferFrame(t: Tables, op: Op)
    requires OwnedOnce(t.clubs, t.members) && op.Transfer? && TransferRule(t, op).Ok?
    ensures var u := TransferRule(t, op).value; var c := t.clubs[op.club];
            && u.requests == t.requests
            && t.members[(op.club, op.p.user)] == Owner && (op.club, op.target) in t.members
            && u.members == t.members[(op.club, op.p.user) := Member][(op.club, op.target) := Owner]
            && u.clubs == t.clubs[op.club := c.(owner := op.target, revision := c.revision + 1)]
  {
  }

  // ----- join requests

  /** Of one user in one club at most one request is pending. */
  lemma AtMostOnePending(ops: seq<Op>, club: ClubId, user: UserId, r: RequestId, q: RequestId)
    requires IsPending(Exec(EMPTY, ops).requests, r, club, user) && IsPending(Exec(EMPTY, ops).requests, q, club, user)
    ensures r == q
  {
    Reachable(ops);
  }

  /** A request that was approved, rejected or cancelled never changes again. */
  lemma {:induction false} DecidedIsFinal(t: Tables, ops: seq<Op>, r: RequestId)
    requires r in t.requests && t.requests[r].status != Pending
    ensures r in Exec(t, ops).requests && Exec(t, ops).requests[r] == t.requests[r]
    decreases |ops|
  {
    if ops != [] {
      var n := |ops| - 1;
      DecidedIsFinal(t, ops[..n], r);
      DecidedStays(Exec(t, ops[..n]), ops[n], r);
    }
  }

  lemma DecidedStays(t: Tables, op: Op, r: RequestId)
    requires r in t.requests && t.requests[r].status != Pending
    ensures r in Step(t, op).requests && Step(t, op).requests[r] == t.requests[r]
  {
  }

  /** An approval leaves the user a member and the request decided; repeating it later changes nothing, whether it is
      accepted (the user is still a member) or refused (the user has left since). */
  lemma ApproveOnce(t: Tables, op: Op, ops: seq<Op>, again: Op)
    requires op.Approve? && ApproveRule(t, op).Ok?
    requires again.Approve? && again.request == op.request
    ensures var u := ApproveRule(t, op).value;
            && (op.club, u.requests[op.request].user) in u.members && u.requests[op.request].status == Approved
    ensures var v := Exec(ApproveRule(t, op).value, ops);
            && Step(v, again) == v
            && (ApproveRule(v, again).Ok? ==> (op.club, v.requests[op.request].user) in v.members)
  {
    var u := ApproveRule(t, op).value;
    DecidedIsFinal(u, ops, op.request);
  }

  /** Whoever joins an open club and leaves again leaves no trace. */
  lemma LeaveUndoesJoin(t: Tables, join: Op, leave: Op)
    requires Inv(t) && join.Join? && Succeeds(t, join) && (join.club, join.p.user) !in t.members
    requires leave.Leave? && leave.p == join.p && leave.club == join.club
    requires t.clubs[join.club].profile.policy == OpenToAll
    ensures Succeeds(Step(t, join), leave) && Step(Step(t, join), leave) == t
  {
    var u := Step(t, join);
    assert u == t.(members := t.members[(join.club, join.p.user) := Member]);
    assert RemoveMember(u.members, join.club, join.p.user) == t.members;
  }

  lemma CancelOne(t: Tables, r: RequestId, club: ClubId, user: UserId)
    requires OnePending(t.requests) && IsPending(t.requests, r, club, user)
    ensures CancelPending(t.requests, club, user) == t.requests[r := t.requests[r].(status := Cancelled)]
  {
  }

  /** In a club that approves its members, joining leaves one pending request and leaving cancels exactly that one. */
  lemma LeaveCancelsRequest(t: Tables, join: Op, leave: Op)
    requires Inv(t) && join.Join? && Succeeds(t, join) && (join.club, join.p.user) !in t.members
    requires t.clubs[join.club].profile.policy == ApprovalRequired
    requires leave.Leave? && leave.p == join.p && leave.club == join.club
    ensures var u := Step(t, join);
            exists r :: IsPending(u.requests, r, join.club, join.p.user) &&
              Step(u, leave) == u.(requests := u.requests[r := u.requests[r].(status := Cancelled)])
  {
    JoinAsks(t, join);
    var requests := CreateOrGetPending(t.requests, join.club, join.p.user, join.message, join.newId);
    var r := PendingAfterJoin(t.requests, join.club, join.p.user, join.message, join.newId);
    NewRequestKeeps(t, join.club, join.p.user, join.message, join.newId);
    LeaveWithdraws(t.(requests := requests), leave, r);
    CancelOne(t.(requests := requests), r, join.club, join.p.user);
  }

  /** Joining a club with approval asks for it. */
  lemma JoinAsks(t: Tables, join: Op)
    requires join.Join? && Succeeds(t, join) && (join.club, join.p.user) !in t.members
    requires t.clubs[join.club].profile.policy == ApprovalRequired
    ensures Step(t, join) == t.(requests := CreateOrGetPending(t.requests, join.club, join.p.user, join.message, join.newId))
    ensures join.p.active && t.clubs[join.club].status == Published
  {
  }

  /** Leaving without being a member withdraws what is pending. */
  lemma LeaveWithdraws(t: Tables, leave: Op, r: RequestId)
    requires leave.Leave? && leave.p.active && leave.club in t.clubs && !Frozen(t.clubs[leave.club])
    requires (leave.club, leave.p.user) !in t.members && IsPending(t.requests, r, leave.club, leave.p.user)
    ensures Step(t, leave) == t.(requests := CancelPending(t.requests, leave.club, leave.p.user))
  {
  }

  predicate HasPending(requests: Requests, club: ClubId, user: UserId) {
    exists q :: q in requests && IsPending(requests, q, club, user)
  }

  /** A successful join leaves a membership or a pending request; whatever becomes of it, the user has at most one
      request pending there, and nobody loses a membership or a request. */
  lemma JoinLeaves(t: Tables, op: Op)
    requires Inv(t) && op.Join? && op.newId !in t.requests
    ensures var u := Step(t, op);
            && (Succeeds(t, op) ==> (op.club, op.p.user) in u.members || HasPending(u.requests, op.club, op.p.user))
            && (forall q, s | IsPending(u.requests, q, op.club, op.p.user) && IsPending(u.requests, s, op.club, op.p.user) :: q == s)
            && (forall k | k in t.members :: k in u.members && u.members[k] == t.members[k])
            && (forall q | q in t.requests :: q in u.requests && u.requests[q] == t.requests[q])
  {
    if Succeeds(t, op) {
      JoinArrives(t, op);
      JoinTakesNothing(t, op);
      JoinKeeps(t, op);
      PendingIsUnique(JoinRule(t, op).value.requests, op.club, op.p.user);
    } else {
      PendingIsUnique(t.requests, op.club, op.p.user);
    }
  }

  lemma PendingIsUnique(requests: Requests, club: ClubId, user: UserId)
    requires OnePending(requests)
    ensures forall q, s | IsPending(requests, q, club, user) && IsPending(requests, s, club, user) :: q == s
  {
  }

  lemma JoinArrives(t: Tables, op: Op)
    requires op.Join? && JoinRule(t, op).Ok?
    ensures var u := JoinRule(t, op).value; (op.club, op.p.user) in u.members || HasPending(u.requests, op.club, op.p.user)
  {
    var r := PendingAfterJoin(t.requests, op.club, op.p.user, op.message, op.newId);
  }

  lemma JoinTakesNothing(t: Tables, op: Op)
    requires op.Join? && JoinRule(t, op).Ok? && op.newId !in t.requests
    ensures var u := JoinRule(t, op).value;
            && (forall k | k in t.members :: k in u.members && u.members[k] == t.members[k])
            && (forall q | q in t.requests :: q in u.requests && u.requests[q] == t.requests[q])
  {
    JoinForm(t, op);
  }

  /** A leave succeeds exactly for an active user who is a member without being the owner, or has a request pending, in a
      club that is neither suspended nor closed; it removes that membership or cancels that one request. */
  lemma LeaveSucceedsIff(t: Tables, op: Op)
    requires Inv(t) && op.Leave?
    ensures LeaveRule(t, op).Ok? <==>
              && op.p.active && op.club in t.clubs
              && t.clubs[op.club].status != Suspended && t.clubs[op.club].status != Closed
              && (if (op.club, op.p.user) in t.members then t.members[(op.club, op.p.user)] != Owner
                  else HasPending(t.requests, op.club, op.p.user))
    ensures LeaveRule(t, op).Ok? ==>
              var u := LeaveRule(t, op).value;
              if (op.club, op.p.user) in t.members
              then u == t.(members := t.members - {(op.club, op.p.user)})
              else exists q :: IsPending(t.requests, q, op.club, op.p.user) &&
                     u == t.(requests := t.requests[q := t.requests[q].(status := Cancelled)])
  {
    if (op.club, op.p.user) !in t.members && HasPending(t.requests, op.club, op.p.user) {
      var q :| q in t.requests && IsPending(t.requests, q, op.club, op.p.user);
      CancelOne(t, q, op.club, op.p.user);
    }
  }

  /** A successful leave ends the membership or, where there is none, withdraws what is pending; the owner cannot leave. */
  lemma LeaveEnds(t: Tables, op: Op)
    requires Inv(t) && op.Leave?
    ensures var u := Step(t, op);
            && (Succeeds(t, op) ==> (op.club, op.p.user) !in u.members && op.club in u.clubs && op.p.user != u.clubs[op.club].owner)
            && (Succeeds(t, op) && (op.club, op.p.user) !in t.members ==> !HasPending(u.requests, op.club, op.p.user))
            && (forall k | k != (op.club, op.p.user) :: k in u.members <==> k in t.members)
  {
  }

  lemma PendingAfterJoin(requests: Requests, club: ClubId, user: UserId, message: Option<string>, newId: RequestId)
    returns (r: RequestId)
    ensures IsPending(CreateOrGetPending(requests, club, user, message, newId), r, club, user)
  {
    if exists q :: q in requests && IsPending(requests, q, club, user) {
      r :| r in requests && IsPending(requests, r, club, user);
    } else {
      r := newId;
    }
  }

  // ----- revisions

  /** Profile updates, transfers and closings, by name. */
  predicate Bumps(op: Op, club: ClubId) {
    (op.Update? || op.Transfer? || op.Close?) && op.club == club
  }

  /** What an operation may do to a club that exists. */
  predicate ClubMoves(c: Club, d: Club, bump: bool) {
    d.revision == c.revision + (if bump then 1 else 0) && (c.publishedAt.Some? ==> d.publishedAt == c.publishedAt)
  }

  lemma UpdateFrame(t: Tables, op: Op, club: ClubId)
    requires op.Update? && UpdateRule(t, op).Ok? && club in t.clubs
    ensures var u := UpdateRule(t, op).value; club in u.clubs && ClubMoves(t.clubs[club], u.clubs[club], club == op.club)
  {
  }

  lemma TransferRevision(t: Tables, op: Op, club: ClubId)
    requires OwnedOnce(t.clubs, t.members) && op.Transfer? && TransferRule(t, op).Ok? && club in t.clubs
    ensures var u := TransferRule(t, op).value; club in u.clubs && ClubMoves(t.clubs[club], u.clubs[club], club == op.club)
  {
    TransferFrame(t, op);
  }

  lemma CloseFrame(t: Tables, op: Op, club: ClubId)
    requires op.Close? && CloseRule(t, op).Ok? && club in t.clubs
    ensures var u := CloseRule(t, op).value; club in u.clubs && ClubMoves(t.clubs[club], u.clubs[club], club == op.club)
  {
  }

  lemma ModerateFrame(t: Tables, op: Op, club: ClubId)
    requires op.Moderate? && ModerateRule(t, op).Ok? && club in t.clubs
    ensures var u := ModerateRule(t, op).value; club in u.clubs && ClubMoves(t.clubs[club], u.clubs[club], false)
  {
  }

  /** Each successful update, transfer or closing adds exactly one to the revision of its club, and nothing else does;
      no operation touches a publication time that is set. */
  lemma RevisionCounts(t: Tables, op: Op, club: ClubId)
    requires OwnedOnce(t.clubs, t.members) && club in t.clubs
    ensures var u := Step(t, op);
            club in u.clubs && ClubMoves(t.clubs[club], u.clubs[club], Succeeds(t, op) && Bumps(op, club))
  {
    if Succeeds(t, op) {
      match op
      case Update(_, _, _, _, _) => UpdateFrame(t, op, club);
      case Transfer(_, _, _, _, _) => TransferRevision(t, op, club);
      case Close(_, _, _, _) => CloseFrame(t, op, club);
      case Moderate(_, _, _) => ModerateFrame(t, op, club);
      case _ => OthersFrame(t, op, club);
    }
  }

  /** The other operations leave the rows of existing clubs alone. */
  lemma OthersFrame(t: Tables, op: Op, club: ClubId)
    requires Succeeds(t, op) && club in t.clubs && !(op.Update? || op.Transfer? || op.Close? || op.Moderate?)
    ensures club in Step(t, op).clubs && Step(t, op).clubs[club] == t.clubs[club]
  {
  }

  lemma {:induction false} RevisionGrows(t: Tables, ops: seq<Op>, club: ClubId)
    requires Inv(t) && club in t.clubs
    ensures Inv(Exec(t, ops)) && club in Exec(t, ops).clubs
    ensures t.clubs[club].revision <= Exec(t, ops).clubs[club].revision
    decreases |ops|
  {
    if ops != [] {
      var n := |ops| - 1;
      RevisionGrows(t, ops[..n], club);
      StepKeeps(Exec(t, ops[..n]), ops[n]);
      RevisionCounts(Exec(t, ops[..n]), ops[n], club);
    }
  }

  lemma {:induction false} ExecAppend(t: Tables, a: seq<Op>, b: seq<Op>)
    ensures Exec(t, a + b) == Exec(Exec(t, a), b)
    decreases |b|
  {
    if b == [] {
      assert a + b == a;
    } else {
      var n := |b| - 1;
      ExecAppend(t, a, b[..n]);
      assert (a + b)[..|a| + n] == a + b[..n];
    }
  }

  /** After a successful update the revision it was based on is gone for good. */
  lemma RevisionIsConsumed(before: seq<Op>, op: Op, after: seq<Op>)
    requires op.Update? && Succeeds(Exec(EMPTY, before), op)
    ensures var t := Exec(EMPTY, before + [op] + after);
            op.club in t.clubs && t.clubs[op.club].revision > op.patch.revision
  {
    var t := Exec(EMPTY, before);
    Reachable(before);
    StepKeeps(t, op);
    RevisionCounts(t, op, op.club);
    assert (before + [op])[..|before|] == before;
    assert Exec(EMPTY, before + [op]) == Step(t, op);
    ExecAppend(EMPTY, before + [op], after);
    RevisionGrows(Step(t, op), after, op.club);
  }

  /** No lost update: over any run at most one profile update based on a given revision of a club succeeds. */
  lemma OneUpdatePerRevision(before: seq<Op>, first: Op, between: seq<Op>, second: Op)
    requires first.Update? && second.Update?
    requires first.club == second.club && first.patch.revision == second.patch.revision
    requires Succeeds(Exec(EMPTY, before), first)
    ensures !Succeeds(Exec(EMPTY, before + [first] + between), second)
  {
    RevisionIsConsumed(before, first, between);
  }

  // ----- profile updates

  /** A supplied field holds what was supplied; any other is as it was. */
  predicate Carries<T(==)>(change: Change<T>, was: T, after: T) {
    match change
    case Keep => after == was
    case Set(value) => after == value
  }

  /** What the profile has to be after the patch, field by field. */
  predicate Follows(was: Profile, patch: Patch, after: Profile) {
    && Carries(patch.slug, Some(was.slug), Some(after.slug))
    && Carries(patch.name, Some(was.name), Some(after.name))
    && Carries(patch.description, was.description, after.description)
    && Carries(patch.category, was.category, after.category)
    && Carries(patch.country, was.country, after.country)
    && Carries(patch.city, was.city, after.city)
    && Carries(patch.policy, Some(was.policy), Some(after.policy))
    && Carries(patch.socialLinks, Some(was.socialLinks), Some(after.socialLinks))
    && Carries(patch.logo, was.logo, after.logo)
    && Carries(patch.cover, was.cover, after.cover)
  }

  /** No required field is missing. */
  predicate Complete(p: Profile) {
    p.description.Some? && p.category.Some? && p.country.Some? && p.city.Some?
  }

  /** The profile after the patch may stand: a club that is not a draft stays complete, a city has its country, every
      reference is found, and no other club has the slug. */
  predicate Admits(clubs: Clubs, club: ClubId, patch: Patch, after: Profile, resolved: bool)
    requires club in clubs
  {
    && Follows(clubs[club].profile, patch, after)
    && (clubs[club].status == Draft || Complete(after))
    && (after.city.Some? ==> after.country.Some?) && resolved
    && (forall c | c in clubs && c != club :: clubs[c].profile.slug != after.slug)
  }

  lemma RequiredCarries<T>(change: Change<Option<T>>, was: T, after: T)
    ensures Carries(change, Some(was), Some(after)) <==> change != Set(None) && Pick(change, Some(was)) == Some(after)
    ensures change != Set(None) ==> Pick(change, Some(was)).Some?
  {
    if change.Set? && change.value.None? {
      assert change == Set(None);
    }
  }

  lemma PatchedFollows(was: Profile, patch: Patch, after: Profile)
    ensures Follows(was, patch, after) <==> Patched(was, patch) == Some(after)
  {
    RequiredCarries(patch.slug, was.slug, after.slug);
    RequiredCarries(patch.name, was.name, after.name);
    RequiredCarries(patch.policy, was.policy, after.policy);
    RequiredCarries(patch.socialLinks, was.socialLinks, after.socialLinks);
    if Follows(was, patch, after) {
      assert Patched(was, patch).value == after;
    }
  }

  lemma CompleteIff(p: Profile)
    ensures MissingFields(p) == [] <==> Complete(p)
  {
  }

  /** An update is refused to whoever is not an active manager of a club that is neither suspended nor closed, is stale when
      the revision is not the current one, and succeeds exactly when the patched profile may stand. */
  lemma UpdateSucceedsIff(t: Tables, op: Op)
    requires Inv(t) && op.Update?
    ensures var manages :=
              && op.p.active && op.club in t.clubs
              && t.clubs[op.club].status != Suspended && t.clubs[op.club].status != Closed
              && (op.p.user == t.clubs[op.club].owner
                  || ((op.club, op.p.user) in t.members
                      && (t.members[(op.club, op.p.user)] == Owner || t.members[(op.club, op.p.user)] == Admin)));
            && (UpdateRule(t, op) == Err(Forbidden) <==> op.club in t.clubs && !manages)
            && (UpdateRule(t, op) == Err(StaleRevision) <==> manages && op.patch.revision != t.clubs[op.club].revision)
            && (UpdateRule(t, op).Ok? <==>
                  && manages && op.patch.revision == t.clubs[op.club].revision
                  && exists after :: Admits(t.clubs, op.club, op.patch, after, op.resolved))
    ensures UpdateRule(t, op) == Err(DuplicateSlug) ==>
              exists c | c in t.clubs :: c != op.club && op.patch.slug == Set(Some(t.clubs[c].profile.slug))
  {
    if op.club in t.clubs {
      var was := t.clubs[op.club].profile;
      forall after ensures Follows(was, op.patch, after) <==> Patched(was, op.patch) == Some(after) {
        PatchedFollows(was, op.patch, after);
      }
      if Patched(was, op.patch).Some? {
        var after := Patched(was, op.patch).value;
        CompleteIff(after);
        assert Follows(was, op.patch, after);
        assert Admits(t.clubs, op.club, op.patch, after, op.resolved) <==>
               (t.clubs[op.club].status == Draft || Complete(after)) && ReferencesOk(after, op.resolved)
               && !SlugTaken(t.clubs, after.slug, op.club);
      }
    }
  }

  /** What a successful update leaves: the patched profile under the next revision, public if it was a complete draft. */
  lemma UpdateForm(t: Tables, op: Op)
    requires Inv(t) && op.Update? && UpdateRule(t, op).Ok?
    ensures var u := UpdateRule(t, op).value; var c := t.clubs[op.club];
            && op.club in u.clubs && Follows(c.profile, op.patch, u.clubs[op.club].profile)
            && u.members == t.members && u.requests == t.requests && u.clubs == t.clubs[op.club := u.clubs[op.club]]
            && u.clubs[op.club] ==
               if c.status == Draft && Complete(u.clubs[op.club].profile)
               then c.(profile := u.clubs[op.club].profile, revision := c.revision + 1, status := Published,
                       publishedAt := Some(op.now))
               else c.(profile := u.clubs[op.club].profile, revision := c.revision + 1)
  {
    var after := UpdateRule(t, op).value.clubs[op.club].profile;
    assert ClubShape(t.clubs[op.club]);
    PatchedFollows(t.clubs[op.club].profile, op.patch, after);
    CompleteIff(after);
  }

  predicate SuppliesNothing(patch: Patch) {
    && patch.slug.Keep? && patch.name.Keep? && patch.description.Keep? && patch.category.Keep? && patch.country.Keep?
    && patch.city.Keep? && patch.policy.Keep? && patch.socialLinks.Keep? && patch.logo.Keep? && patch.cover.Keep?
  }

  /** An update that supplies no field changes nothing but the revision. */
  lemma UpdateOfNothing(t: Tables, op: Op)
    requires Inv(t) && op.Update? && SuppliesNothing(op.patch) && Succeeds(t, op)
    ensures var c := t.clubs[op.club]; Step(t, op) == t.(clubs := t.clubs[op.club := c.(revision := c.revision + 1)])
  {
    UpdateForm(t, op);
    assert ClubShape(t.clubs[op.club]);
    CompleteIff(t.clubs[op.club].profile);
  }

  // ----- publication

  /** A draft lacks a description, category, country or city and was never published; what is public, or was until a
      moderator took it down, lacks none of them and has its publication time. */
  lemma PublishedMeansComplete(ops: seq<Op>, club: ClubId)
    requires club in Exec(EMPTY, ops).clubs
    ensures var c := Exec(EMPTY, ops).clubs[club]; var p := c.profile;
            && (c.status == Draft ==>
                  c.publishedAt.None? && (p.description.None? || p.category.None? || p.country.None? || p.city.None?))
            && (c.status == Published || c.status == Unpublished || c.status == Suspended ==>
                  c.publishedAt.Some? && p.description.Some? && p.category.Some? && p.country.Some? && p.city.Some?)
  {
    Reachable(ops);
    assert ClubShape(Exec(EMPTY, ops).clubs[club]);
    CompleteIff(Exec(EMPTY, ops).clubs[club].profile);
  }

  /** Once set, the publication time never changes, whatever is closed, suspended or restored. */
  lemma {:induction false} PublicationTimeIsFinal(t: Tables, ops: seq<Op>, club: ClubId)
    requires Inv(t) && club in t.clubs && t.clubs[club].publishedAt.Some?
    ensures Inv(Exec(t, ops))
    ensures club in Exec(t, ops).clubs && Exec(t, ops).clubs[club].publishedAt == t.clubs[club].publishedAt
    decreases |ops|
  {
    if ops != [] {
      var n := |ops| - 1;
      PublicationTimeIsFinal(t, ops[..n], club);
      StepKeeps(Exec(t, ops[..n]), ops[n]);
      RevisionCounts(Exec(t, ops[..n]), ops[n], club);
    }
  }
}
