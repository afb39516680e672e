/** The club services and repositories as code over mutable tables, one request at a time. */
module ClubService {
  import opened Prelude
  import opened ClubTables
  import opened ClubRules
  import opened ClubTheorems

  /** The tables; a request holds the lock on its club row throughout. */
  class ClubDatabase {
    var clubs: Clubs
    var members: Members
    var requests: Requests
    ghost var trace: seq<Op>

    constructor ()
      ensures Valid() && Rows() == EMPTY
    {
      clubs, members, requests, trace := map[], map[], map[], [];
    }

    function Rows(): Tables
      reads this
    {
      Tables(clubs, members, requests)
    }

    /** What is stored is what the requests served so far have made of empty tables. */
    ghost predicate Valid()
      reads this
    {
      Rows() == Exec(EMPTY, trace)
    }

    /** The transaction is committed. */
    ghost method Commit(op: Op)
      requires WellFormed(Exec(EMPTY, trace), op) && Apply(Exec(EMPTY, trace), op) == Ok(Rows())
      modifies this`trace
      ensures Valid() && trace == old(trace) + [op]
    {
      assert (trace + [op])[..|trace|] == trace;
      trace := trace + [op];
    }

    /** The transaction is rolled back. */
    method Rollback(saved: Tables)
      modifies this`clubs, this`members, this`requests
      ensures Rows() == saved
    {
      clubs, members, requests := saved.clubs, saved.members, saved.requests;
    }

    /** create: the club row, which the unique slug may refuse, and its owner's membership. */
    method InsertClub(club: ClubId, row: Club) returns (inserted: bool)
      modifies this`clubs, this`members
      ensures inserted <==> !SlugTaken(old(clubs), row.profile.slug, club)
      ensures clubs == if inserted then old(clubs)[club := row] else old(clubs)
      ensures members == if inserted then old(members)[(club, row.owner) := Owner] else old(members)
    {
      inserted := forall c | c in clubs :: c != club ==> clubs[c].profile.slug != row.profile.slug;
      if inserted {
        clubs := clubs[club := row];
        members := members[(club, row.owner) := Owner];
      }
    }

    /** update: a compare-and-set on the revision, which the unique slug may refuse. */
    method UpdateClub(club: ClubId, profile: Profile, status: ClubStatus, expected: nat, published: Option<Time>)
      returns (r: Result<(), Error>)
      modifies this`clubs
      ensures match ClubTables.UpdateClub(old(clubs), club, profile, status, expected, published)
              case Ok(updated) => r == Ok(()) && clubs == updated
              case Err(e) => r == Err(e) && clubs == old(clubs)
    {
      if club !in clubs || clubs[club].revision != expected {
        return Err(StaleRevision);
      }
      if exists c | c in clubs :: c != club && clubs[c].profile.slug == profile.slug {
        return Err(DuplicateSlug);
      }
      var c := clubs[club];
      clubs := clubs[club := Club(
        c.owner, profile, status, c.revision + 1, if c.publishedAt.Some? then c.publishedAt else published,
        c.suspendedAt, c.closedAt)];
      return Ok(());
    }

    /** close_club: whether a row was hit. */
    method CloseClub(club: ClubId, now: Time) returns (hit: bool)
      modifies this`clubs
      ensures hit <==> club in old(clubs) && old(clubs)[club].status !in {Closed, Suspended}
      ensures clubs == if hit then ClubTables.CloseClub(old(clubs), club, now).value else old(clubs)
    {
      hit := club in clubs && clubs[club].status != Closed && clubs[club].status != Suspended;
      if hit {
        var c := clubs[club];
        clubs := clubs[club := c.(status := Closed, closedAt := Some(now), revision := c.revision + 1)];
      }
    }

    /** INSERT INTO club_memberships ... ON CONFLICT (club_id, user_id) DO NOTHING */
    method AddMember(club: ClubId, user: UserId)
      modifies this`members
      ensures members == if (club, user) in old(members) then old(members) else old(members)[(club, user) := Member]
    {
      if (club, user) !in members {
        members := members[(club, user) := Member];
      }
    }

    /** set_role: whether a row that is not the owner's was hit. */
    method SetRole(club: ClubId, user: UserId, role: Role) returns (hit: bool)
      modifies this`members
      ensures hit <==> (club, user) in old(members) && old(members)[(club, user)] != Owner
      ensures members == if hit then old(members)[(club, user) := role] else old(members)
    {
      hit := (club, user) in members && members[(club, user)] != Owner;
      if hit {
        members := members[(club, user) := role];
      }
    }

    /** transfer_ownership: three updates in a row and which of them hit; only the second is checked, and the unique index
        on the owner role may refuse it. */
    method TransferOwnership(club: ClubId, current: UserId, target: UserId)
      returns (demoted: bool, promoted: bool, handedOver: bool)
      modifies this`members, this`clubs
      ensures demoted <==> (club, current) in old(members) && old(members)[(club, current)] == Owner
      ensures var halfway := if demoted then old(members)[(club, current) := Member] else old(members);
              && (promoted <==> (club, target) in halfway && halfway[(club, target)] != Owner
                                && OwnerIndexAllows(halfway, club, target))
              && members == if promoted then halfway[(club, target) := Owner] else halfway
      ensures handedOver <==> promoted && club in old(clubs) && old(clubs)[club].owner == current
      ensures clubs ==
              if handedOver
              then old(clubs)[club := old(clubs)[club].(owner := target, revision := old(clubs)[club].revision + 1)]
              else old(clubs)
    {
      handedOver := false;
      demoted := (club, current) in members && members[(club, current)] == Owner;
      if demoted {
        members := members[(club, current) := Member];
      }
      promoted := (club, target) in members && members[(club, target)] != Owner && OwnerIndexAllows(members, club, target);
      if promoted {
        members := members[(club, target) := Owner];
        handedOver := club in clubs && clubs[club].owner == current;
        if handedOver {
          clubs := clubs[club := clubs[club].(owner := target, revision := clubs[club].revision + 1)];
        }
      }
    }

    /** create_or_get_pending_request: whether a request was created. */
    method CreateOrGetPending(club: ClubId, user: UserId, message: Option<string>, newId: RequestId)
      returns (created: bool)
      modifies this`requests
      ensures requests == ClubTables.CreateOrGetPending(old(requests), club, user, message, newId)
      ensures created <==> forall r | r in old(requests) :: !IsPending(old(requests), r, club, user)
    {
      created := forall r | r in requests :: !IsPending(requests, r, club, user);
      if created {
        requests := requests[newId := JoinRequest(club, user, Pending, message, None, None, None)];
      }
    }

    /** cancel_pending_request: whether a request was cancelled. */
    method CancelPending(club: ClubId, user: UserId) returns (cancelled: bool)
      modifies this`requests
      ensures requests == ClubTables.CancelPending(old(requests), club, user)
      ensures cancelled <==> exists r :: r in old(requests) && IsPending(old(requests), r, club, user)
    {
      cancelled := exists r :: r in requests && IsPending(requests, r, club, user);
      requests := map r | r in requests ::
        if IsPending(requests, r, club, user) then requests[r].(status := Cancelled) else requests[r];
    }

    /** decide_request: whether a pending row was hit. */
    method Decide(r: RequestId, status: RequestStatus, actor: UserId, reason: string, now: Time) returns (hit: bool)
      modifies this`requests
      ensures hit <==> r in old(requests) && old(requests)[r].status == Pending
      ensures requests == if hit then ClubTables.Decide(old(requests), r, status, actor, reason, now).value
                          else old(requests)
    {
      hit := r in requests && requests[r].status == Pending;
      if hit {
        requests := requests[r := requests[r].(
          status := status, decidedBy := Some(actor), reason := Some(reason), decidedAt := Some(now))];
      }
    }
  }

  /** The answer to a request on these tables. */
  function Verdict(t: Tables, op: Op): Result<(), Error> {
    match Apply(t, op)
    case Ok(_) => Ok(())
    case Err(e) => Err(e)
  }

  /** The request was answered as it must be, and has become part of the history exactly when it succeeded. */
  ghost predicate Served(db: ClubDatabase, t: Tables, history: seq<Op>, op: Op, r: Result<(), Error>)
    reads db
  {
    && db.Valid() && r == Verdict(t, op)
    && db.trace == if r.Ok? then history + [op] else history
  }

  /** What every served request leaves: the invariant, and on an error the old tables. */
  lemma ServedKeeps(db: ClubDatabase, t: Tables, history: seq<Op>, op: Op, r: Result<(), Error>)
    requires t == Exec(EMPTY, history) && WellFormed(t, op) && Served(db, t, history, op, r)
    ensures Inv(t) && Inv(db.Rows()) && db.Rows() == Step(t, op)
  {
    Reachable(history);
    StepKeeps(t, op);
    if r.Ok? {
      assert (history + [op])[..|history|] == history;
    }
  }

  class MembershipService {
    const db: ClubDatabase

    constructor (db: ClubDatabase)
      ensures this.db == db
    {
      this.db := db;
    }

    /** A successful join leaves a membership or exactly one pending request, and takes nothing from anybody. */
    method Join(p: Principal, club: ClubId, message: Option<string>, newId: RequestId) returns (r: Result<(), Error>)
      requires db.Valid() && newId !in db.requests
      modifies db
      ensures Served(db, old(db.Rows()), old(db.trace), Op.Join(p, club, message, newId), r)
      ensures r.Ok? <==>
                p.active && p.emailVerified && club in old(db.clubs) && old(db.clubs)[club].status == Published
      ensures r.Ok? ==> (club, p.user) in db.members || HasPending(db.requests, club, p.user)
      ensures r.Ok? && (club, p.user) !in old(db.members) && old(db.clubs)[club].profile.policy == OpenToAll ==>
                db.members == old(db.members)[(club, p.user) := Member] && db.requests == old(db.requests)
      ensures r.Ok? && (club, p.user) !in old(db.members) && old(db.clubs)[club].profile.policy == ApprovalRequired ==>
                && db.members == old(db.members)
                && db.requests == if HasPending(old(db.requests), club, p.user) then old(db.requests)
                                  else old(db.requests)[newId := JoinRequest(club, p.user, Pending, message, None, None, None)]
      ensures db.clubs == old(db.clubs) && ((club, p.user) in old(db.members) ==> db.Rows() == old(db.Rows()))
      ensures forall q, s | IsPending(db.requests, q, club, p.user) && IsPending(db.requests, s, club, p.user) :: q == s
      ensures forall k | k in old(db.members) :: k in db.members && db.members[k] == old(db.members)[k]
      ensures forall q | q in old(db.requests) :: q in db.requests && db.requests[q] == old(db.requests)[q]
    {
      ghost var op := Op.Join(p, club, message, newId);
      ghost var t, history := db.Rows(), db.trace;
      Reachable(history);
      JoinLeaves(t, op);
      r := JoinLocked(p, club, message, newId);
      ServedKeeps(db, t, history, op, r);
    }

    method JoinLocked(p: Principal, club: ClubId, message: Option<string>, newId: RequestId) returns (r: Result<(), Error>)
      requires db.Valid() && newId !in db.requests
      modifies db
      ensures Served(db, old(db.Rows()), old(db.trace), Op.Join(p, club, message, newId), r)
    {
      if !p.active {
        return Err(Forbidden);
      }
      if !p.emailVerified {
        return Err(EmailVerificationRequired);
      }
      if club !in db.clubs {
        return Err(NotFound);
      }
      if db.clubs[club].status != Published {
        return Err(Forbidden);
      }
      if (club, p.user) !in db.members {
        if db.clubs[club].profile.policy == OpenToAll {
          db.AddMember(club, p.user);
        } else {
          var created := db.CreateOrGetPending(club, p.user, message, newId);
        }
      }
      r := Ok(());
      db.Commit(Op.Join(p, club, message, newId));
    }

    /** A successful leave ends the membership or, where there is none, the pending request; the owner cannot leave. */
    method Leave(p: Principal, club: ClubId) returns (r: Result<(), Error>)
      requires db.Valid()
      modifies db
      ensures Served(db, old(db.Rows()), old(db.trace), Op.Leave(p, club), r)
      ensures var t := old(db.Rows());
              r.Ok? <==>
                && p.active && club in t.clubs && t.clubs[club].status != Suspended && t.clubs[club].status != Closed
                && (if (club, p.user) in t.members then t.members[(club, p.user)] != Owner
                    else HasPending(t.requests, club, p.user))
      ensures r.Ok? ==> (club, p.user) !in db.members && p.user != db.clubs[club].owner
      ensures r.Ok? && (club, p.user) in old(db.members) ==>
                db.members == old(db.members) - {(club, p.user)} && db.requests == old(db.requests)
      ensures r.Ok? && (club, p.user) !in old(db.members) ==>
                exists q :: IsPending(old(db.requests), q, club, p.user) &&
                  db.requests == old(db.requests)[q := old(db.requests)[q].(status := Cancelled)]
      ensures db.clubs == old(db.clubs) && (r.Err? ==> db.Rows() == old(db.Rows()))
      ensures r.Ok? && (club, p.user) !in old(db.members) ==> !HasPending(db.requests, club, p.user)
      ensures forall k | k != (club, p.user) :: k in db.members <==> k in old(db.members)
    {
      ghost var t, history := db.Rows(), db.trace;
      Reachable(history);
      LeaveEnds(t, Op.Leave(p, club));
      LeaveSucceedsIff(t, Op.Leave(p, club));
      r := LeaveLocked(p, club);
      ServedKeeps(db, t, history, Op.Leave(p, club), r);
    }

    method LeaveLocked(p: Principal, club: ClubId) returns (r: Result<(), Error>)
      requires db.Valid()
      modifies db
      ensures Served(db, old(db.Rows()), old(db.trace), Op.Leave(p, club), r)
    {
      if !p.active {
        return Err(Forbidden);
      }
      if club !in db.clubs {
        return Err(NotFound);
      }
      if Frozen(db.clubs[club]) {
        return Err(Forbidden);
      }
      if (club, p.user) !in db.members {
        var before := db.Rows();
        var cancelled := db.CancelPending(club, p.user);
        if !cancelled {
          db.Rollback(before);
          return Err(NotFound);
        }
      } else {
        if db.members[(club, p.user)] == Owner || db.clubs[club].owner == p.user {
          return Err(SoleOwnerExit);
        }
        db.members := db.members - {(club, p.user)};
      }
      r := Ok(());
      db.Commit(Op.Leave(p, club));
    }

    /** A successful approval leaves the request approved and its user a member; the guarded update cannot miss. */
    method Approve(p: Principal, club: ClubId, request: RequestId, reason: string, now: Time)
      returns (r: Result<(), Error>)
      requires db.Valid()
      modifies db
      ensures Served(db, old(db.Rows()), old(db.trace), Op.Approve(p, club, request, reason, now), r)
      ensures var t := old(db.Rows());
              var manages :=
                && p.active && club in t.clubs && t.clubs[club].status != Suspended && t.clubs[club].status != Closed
                && (p.user == t.clubs[club].owner
                    || ((club, p.user) in t.members
                        && (t.members[(club, p.user)] == Owner || t.members[(club, p.user)] == Admin)));
              && (r.Ok? <==>
                    && 3 <= |reason| <= 500 && manages && request in t.requests && t.requests[request].club == club
                    && (t.requests[request].status == Pending
                        || (t.requests[request].status == Approved && (club, t.requests[request].user) in t.members)))
              && (r == Err(Forbidden) <==> 3 <= |reason| <= 500 && club in t.clubs && !manages)
              && (r == Err(InvalidReason) <==> !(3 <= |reason| <= 500))
      ensures r.Ok? && old(db.requests)[request].status == Pending ==>
                var q := old(db.requests)[request];
                && db.requests == old(db.requests)[request := JoinRequest(
                                        club, q.user, Approved, q.message, Some(p.user), Some(reason), Some(now))]
                && db.members == if (club, q.user) in old(db.members) then old(db.members)
                                 else old(db.members)[(club, q.user) := Member]
      ensures db.clubs == old(db.clubs)
      ensures r.Err? || old(db.requests)[request].status != Pending ==> db.Rows() == old(db.Rows())
      ensures r.Ok? ==>
                && request in db.requests && db.requests[request].status == Approved
                && (club, db.requests[request].user) in db.members
      ensures forall k | k in old(db.members) :: k in db.members && db.members[k] == old(db.members)[k]
    {
      ghost var op := Op.Approve(p, club, request, reason, now);
      if !ReasonOk(reason) {
        return Err(InvalidReason);
      }
      if club !in db.clubs {
        return Err(NotFound);
      }
      if !CanManage(db.Rows(), p, club) {
        return Err(Forbidden);
      }
      if request !in db.requests || db.requests[request].club != club {
        return Err(NotFound);
      }
      var found := db.requests[request];
      if found.status != Approved || (club, found.user) !in db.members {
        if found.status != Pending {
          return Err(Conflict);
        }
        db.AddMember(club, found.user);
        var hit := db.Decide(request, Approved, p.user, reason, now);
        assert hit;
      }
      r := Ok(());
      db.Commit(op);
    }

    /** A successful rejection leaves the request rejected and the members as they are. */
    method Reject(p: Principal, club: ClubId, request: RequestId, reason: string, now: Time)
      returns (r: Result<(), Error>)
      requires db.Valid()
      modifies db
      ensures Served(db, old(db.Rows()), old(db.trace), Op.Reject(p, club, request, reason, now), r)
      ensures var t := old(db.Rows());
              var manages :=
                && p.active && club in t.clubs && t.clubs[club].status != Suspended && t.clubs[club].status != Closed
                && (p.user == t.clubs[club].owner
                    || ((club, p.user) in t.members
                        && (t.members[(club, p.user)] == Owner || t.members[(club, p.user)] == Admin)));
              && (r.Ok? <==>
                    && 3 <= |reason| <= 500 && manages && request in t.requests && t.requests[request].club == club
                    && (t.requests[request].status == Pending || t.requests[request].status == Rejected))
              && (r == Err(Forbidden) <==> 3 <= |reason| <= 500 && club in t.clubs && !manages)
              && (r == Err(InvalidReason) <==> !(3 <= |reason| <= 500))
      ensures r.Ok? && old(db.requests)[request].status == Pending ==>
                var q := old(db.requests)[request];
                db.requests == old(db.requests)[request := JoinRequest(
                                     club, q.user, Rejected, q.message, Some(p.user), Some(reason), Some(now))]
      ensures r.Ok? ==> request in db.requests && db.requests[request].status == Rejected
      ensures db.members == old(db.members) && db.clubs == old(db.clubs)
      ensures r.Err? || old(db.requests)[request].status != Pending ==> db.Rows() == old(db.Rows())
    {
      ghost var op := Op.Reject(p, club, request, reason, now);
      if !ReasonOk(reason) {
        return Err(InvalidReason);
      }
      if club !in db.clubs {
        return Err(NotFound);
      }
      if !CanManage(db.Rows(), p, club) {
        return Err(Forbidden);
      }
      if request !in db.requests || db.requests[request].club != club {
        return Err(NotFound);
      }
      if db.requests[request].status != Rejected {
        if db.requests[request].status != Pending {
          return Err(Conflict);
        }
        var hit := db.Decide(request, Rejected, p.user, reason, now);
        assert hit;
      }
      r := Ok(());
      db.Commit(op);
    }

    /** A successful role change gives one member, who is not the owner, the new role; its guarded update cannot miss. */
    method ChangeRole(p: Principal, club: ClubId, target: UserId, role: Role, reason: string)
      returns (r: Result<(), Error>)
      requires db.Valid() && role != Owner
      modifies db
      ensures Served(db, old(db.Rows()), old(db.trace), Op.ChangeRole(p, club, target, role, reason), r)
      ensures var t := old(db.Rows());
              r.Ok? <==>
                && 3 <= |reason| <= 500
                && p.active && club in t.clubs && t.clubs[club].owner == p.user
                && t.clubs[club].status != Suspended && t.clubs[club].status != Closed
                && (club, target) in t.members && target != p.user
      ensures r.Ok? ==> p.user == db.clubs[club].owner != target && db.members == old(db.members)[(club, target) := role]
      ensures r.Err? ==> db.members == old(db.members)
      ensures db.clubs == old(db.clubs) && db.requests == old(db.requests)
    {
      ghost var op := Op.ChangeRole(p, club, target, role, reason);
      Reachable(db.trace);
      if !ReasonOk(reason) {
        return Err(InvalidReason);
      }
      if club !in db.clubs {
        return Err(NotFound);
      }
      if !OwnerMay(db.Rows(), p, club) {
        return Err(Forbidden);
      }
      if (club, target) !in db.members {
        return Err(NotFound);
      }
      if db.members[(club, target)] == Owner {
        return Err(Conflict);
      }
      if db.members[(club, target)] != role {
        var hit := db.SetRole(club, target, role);
        assert hit;
      }
      r := Ok(());
      db.Commit(op);
    }

    /** A transfer succeeds exactly when its guards pass: each of the three updates hits its one row, so that the conflict
        after the promotion cannot arise and nothing is ever rolled back. */
    method Transfer(p: Principal, club: ClubId, target: UserId, eligible: bool, reason: string)
      returns (r: Result<(), Error>)
      requires db.Valid()
      modifies db
      ensures Served(db, old(db.Rows()), old(db.trace), Op.Transfer(p, club, target, eligible, reason), r)
      ensures var t := old(db.Rows());
              r.Ok? <==>
                && 3 <= |reason| <= 500
                && p.active && club in t.clubs && t.clubs[club].owner == p.user
                && t.clubs[club].status != Suspended && t.clubs[club].status != Closed
                && (club, target) in t.members && target != p.user && eligible
      ensures r == Err(Conflict) ==> target == p.user
      ensures r.Ok? ==>
                var c := old(db.clubs)[club];
                && db.clubs == old(db.clubs)[club := db.clubs[club]]
                && db.clubs[club] == c.(owner := target, revision := c.revision + 1)
                && db.members == old(db.members)[(club, p.user) := Member][(club, target) := Owner]
      ensures db.requests == old(db.requests) && (r.Err? ==> db.Rows() == old(db.Rows()))
    {
      ghost var op := Op.Transfer(p, club, target, eligible, reason);
      ghost var t, history := db.Rows(), db.trace;
      TransferSucceedsIffAllowed(history, op);
      if TransferRule(t, op).Ok? {
        TransferMovesOwnership(history, op);
      }
      r := TransferLocked(p, club, target, eligible, reason);
      ServedKeeps(db, t, history, op, r);
    }

    method TransferLocked(p: Principal, club: ClubId, target: UserId, eligible: bool, reason: string)
      returns (r: Result<(), Error>)
      requires db.Valid()
      modifies db
      ensures Served(db, old(db.Rows()), old(db.trace), Op.Transfer(p, club, target, eligible, reason), r)
    {
      Reachable(db.trace);
      if !ReasonOk(reason) {
        return Err(InvalidReason);
      }
      if club !in db.clubs {
        return Err(NotFound);
      }
      if !OwnerMay(db.Rows(), p, club) {
        return Err(Forbidden);
      }
      if (club, p.user) !in db.members || db.members[(club, p.user)] != Owner || (club, target) !in db.members {
        return Err(NotFound);
      }
      if target == p.user {
        return Err(Conflict);
      }
      if !eligible {
        return Err(Ineligible);
      }
      var demoted, promoted, handedOver := db.TransferOwnership(club, p.user, target);
      assert demoted && promoted && handedOver;
      r := Ok(());
      db.Commit(Op.Transfer(p, club, target, eligible, reason));
    }

    /** A successful closing adds one to the revision; the guarded update cannot miss. */
    method Close(p: Principal, club: ClubId, reason: string, now: Time) returns (r: Result<(), Error>)
      requires db.Valid()
      modifies db
      ensures Served(db, old(db.Rows()), old(db.trace), Op.Close(p, club, reason, now), r)
      ensures var t := old(db.Rows());
              r.Ok? <==>
                && 3 <= |reason| <= 500
                && p.active && club in t.clubs && t.clubs[club].owner == p.user
                && t.clubs[club].status != Suspended && t.clubs[club].status != Closed
      ensures r.Ok? ==>
                var c := old(db.clubs)[club];
                db.clubs == old(db.clubs)[club := c.(status := Closed, closedAt := Some(now), revision := c.revision + 1)]
      ensures db.members == old(db.members) && db.requests == old(db.requests) && (r.Err? ==> db.clubs == old(db.clubs))
    {
      ghost var op := Op.Close(p, club, reason, now);
      if !ReasonOk(reason) {
        return Err(InvalidReason);
      }
      if club !in db.clubs {
        return Err(NotFound);
      }
      if !OwnerMay(db.Rows(), p, club) {
        return Err(Forbidden);
      }
      var hit := db.CloseClub(club, now);
      assert hit;
      r := Ok(());
      db.Commit(op);
    }
  }

  class ClubProfileService {
    const db: ClubDatabase

    constructor (db: ClubDatabase)
      ensures this.db == db
    {
      this.db := db;
    }

    /** A new club has its founder as sole member and owner, and is public at once exactly when nothing required is
        missing. */
    method Create(p: Principal, club: ClubId, profile: Profile, eligible: bool, resolved: bool, now: Time)
      returns (r: Result<(), Error>)
      requires db.Valid() && club !in db.clubs
      modifies db
      ensures Served(db, old(db.Rows()), old(db.trace), Op.Create(p, club, profile, eligible, resolved, now), r)
      ensures var taken := exists c | c in old(db.clubs) :: old(db.clubs)[c].profile.slug == profile.slug;
              && (r.Ok? <==> eligible && resolved && !(profile.city.Some? && profile.country.None?) && !taken)
              && (r == Err(DuplicateSlug) ==> taken)
      ensures r.Ok? ==> forall user :: (club, user) in db.members <==> user == p.user
      ensures r.Ok? ==>
                var complete := profile.description.Some? && profile.category.Some? && profile.country.Some? && profile.city.Some?;
                && db.members == old(db.members)[(club, p.user) := Owner]
                && db.clubs == old(db.clubs)[club :=
                     if complete then Club(p.user, profile, Published, 1, Some(now), None, None)
                     else Club(p.user, profile, Draft, 1, None, None, None)]
      ensures db.requests == old(db.requests) && (r.Err? ==> db.Rows() == old(db.Rows()))
    {
      ghost var op := Op.Create(p, club, profile, eligible, resolved, now);
      Reachable(db.trace);
      if !eligible {
        return Err(Ineligible);
      }
      if (profile.city.Some? && profile.country.None?) || !resolved {
        return Err(InvalidClub);
      }
      var status, published := Draft, None;
      if MissingFields(profile) == [] {
        status, published := Published, Some(now);
      }
      var inserted := db.InsertClub(club, Club(p.user, profile, status, 1, published, None, None));
      if !inserted {
        return Err(DuplicateSlug);
      }
      r := Ok(());
      db.Commit(op);
    }

    /** A successful update, which only a manager can make, changes exactly the supplied fields and adds one to the revision;
        it is stale only when the patch is, because under the lock the compare-and-set cannot miss.  A public club stays
        complete, and a draft becomes public, now, when it is complete. */
    method Update(p: Principal, club: ClubId, patch: Patch, resolved: bool, now: Time) returns (r: Result<(), Error>)
      requires db.Valid()
      modifies db
      ensures Served(db, old(db.Rows()), old(db.trace), Op.Update(p, club, patch, resolved, now), r)
      ensures var t := old(db.Rows());
              var manages :=
                && p.active && club in t.clubs && t.clubs[club].status != Suspended && t.clubs[club].status != Closed
                && (p.user == t.clubs[club].owner
                    || ((club, p.user) in t.members
                        && (t.members[(club, p.user)] == Owner || t.members[(club, p.user)] == Admin)));
              && (r == Err(Forbidden) <==> club in t.clubs && !manages)
              && (r == Err(StaleRevision) <==> manages && patch.revision != t.clubs[club].revision)
              && (r.Ok? <==>
                    && manages && patch.revision == t.clubs[club].revision
                    && exists after :: Admits(t.clubs, club, patch, after, resolved))
      ensures r == Err(DuplicateSlug) ==>
                exists c | c in old(db.clubs) :: c != club && patch.slug == Set(Some(old(db.clubs)[c].profile.slug))
      ensures r.Ok? ==>
                var was, after := old(db.clubs)[club].profile, db.clubs[club].profile;
                && Carries(patch.slug, Some(was.slug), Some(after.slug))
                && Carries(patch.name, Some(was.name), Some(after.name))
                && Carries(patch.description, was.description, after.description)
                && Carries(patch.category, was.category, after.category)
                && Carries(patch.country, was.country, after.country)
                && Carries(patch.city, was.city, after.city)
                && Carries(patch.policy, Some(was.policy), Some(after.policy))
                && Carries(patch.socialLinks, Some(was.socialLinks), Some(after.socialLinks))
                && Carries(patch.logo, was.logo, after.logo)
                && Carries(patch.cover, was.cover, after.cover)
      ensures r.Ok? ==>
                var c, after := old(db.clubs)[club], db.clubs[club].profile;
                var complete := after.description.Some? && after.category.Some? && after.country.Some? && after.city.Some?;
                && db.clubs == old(db.clubs)[club := db.clubs[club]]
                && db.clubs[club] ==
                   if c.status == Draft && complete
                   then c.(profile := after, revision := c.revision + 1, status := Published, publishedAt := Some(now))
                   else c.(profile := after, revision := c.revision + 1)
      ensures db.members == old(db.members) && db.requests == old(db.requests) && (r.Err? ==> db.clubs == old(db.clubs))
    {
      ghost var op := Op.Update(p, club, patch, resolved, now);
      ghost var t, history := db.Rows(), db.trace;
      Reachable(history);
      r := UpdateLocked(p, club, patch, resolved, now);
      ServedKeeps(db, t, history, op, r);
      UpdateSucceedsIff(t, op);
      if r.Ok? {
        UpdateForm(t, op);
      }
    }

    method UpdateLocked(p: Principal, club: ClubId, patch: Patch, resolved: bool, now: Time)
      returns (r: Result<(), Error>)
      requires db.Valid()
      modifies db
      ensures Served(db, old(db.Rows()), old(db.trace), Op.Update(p, club, patch, resolved, now), r)
    {
      ghost var op := Op.Update(p, club, patch, resolved, now);
      if club !in db.clubs {
        return Err(NotFound);
      }
      if !CanManage(db.Rows(), p, club) {
        return Err(Forbidden);
      }
      var c := db.clubs[club];
      if patch.revision != c.revision {
        return Err(StaleRevision);
      }
      var candidate := Patched(c.profile, patch);
      if candidate.None? {
        return Err(InvalidClub);
      }
      var profile := candidate.value;
      var status, published := c.status, None;
      if c.status == Draft {
        if MissingFields(profile) == [] {
          status, published := Published, Some(now);
        }
      } else if MissingFields(profile) != [] {
        return Err(InvalidClub);
      }
      if (profile.city.Some? && profile.country.None?) || !resolved {
        return Err(InvalidClub);
      }
      r := db.UpdateClub(club, profile, status, patch.revision, published);
      if r.Ok? {
        db.Commit(op);
      }
    }
  }
}
