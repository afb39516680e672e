/** The club tables, and each repository statement as a function on them. */
module ClubTables {
  import opened Prelude

  type ClubId = nat
  type UserId = nat
  type RequestId = nat
  type Time = int

  datatype ClubStatus = Draft | Published | Unpublished | Suspended | Closed

  datatype Role = Owner | Admin | Member

  datatype Policy = OpenToAll | ApprovalRequired

  datatype RequestStatus = Pending | Approved | Rejected | Cancelled

  datatype Profile = Profile(
    slug: string,
    name: string,
    description: Option<string>,
    category: Option<string>,
    country: Option<string>,
    city: Option<string>,
    policy: Policy,
    socialLinks: map<string, string>,
    logo: Option<nat>,
    cover: Option<nat>)

  datatype Club = Club(
    owner: UserId,
    profile: Profile,
    status: ClubStatus,
    revision: nat,
    publishedAt: Option<Time>,
    suspendedAt: Option<Time>,
    closedAt: Option<Time>)

  datatype JoinRequest = JoinRequest(
    club: ClubId,
    user: UserId,
    status: RequestStatus,
    message: Option<string>,
    decidedBy: Option<UserId>,
    reason: Option<string>,
    decidedAt: Option<Time>)

  /** Memberships are keyed by the table's unique (club, user) pair. */
  type Members = map<(ClubId, UserId), Role>
  type Requests = map<RequestId, JoinRequest>
  type Clubs = map<ClubId, Club>

  datatype Tables = Tables(clubs: Clubs, members: Members, requests: Requests)

  datatype Error =
    | Forbidden
    | EmailVerificationRequired
    | NotFound
    | Conflict
    | SoleOwnerExit
    | InvalidReason
    | Ineligible
    | InvalidClub
    | DuplicateSlug
    | StaleRevision

  // ----- the publication rule

  function MissingFields(p: Profile): seq<string> {
    (if p.description.None? then ["description"] else []) +
    (if p.category.None? then ["category_slug"] else []) +
    (if p.country.None? then ["country_code"] else []) +
    (if p.city.None? then ["city_slug"] else [])
  }

  predicate SlugTaken(clubs: Clubs, slug: string, except: ClubId) {
    exists c :: c in clubs && c != except && clubs[c].profile.slug == slug
  }

  // ----- memberships

  /** INSERT ... ON CONFLICT (club_id, user_id) DO NOTHING */
  function AddMember(members: Members, club: ClubId, user: UserId): Members {
    if (club, user) in members then members else members[(club, user) := Member]
  }

  function RemoveMember(members: Members, club: ClubId, user: UserId): Members {
    members - {(club, user)}
  }

  /** UPDATE ... SET role WHERE id AND role <> 'owner'; None when no row is hit. */
  function SetRole(members: Members, club: ClubId, user: UserId, role: Role): Option<Members> {
    if (club, user) in members && members[(club, user)] != Owner
    then Some(members[(club, user) := role]) else None
  }

  /** UPDATE ... SET role = 'member' WHERE id AND role = 'owner', which nobody checks. */
  function Demote(members: Members, club: ClubId, user: UserId): Members {
    if (club, user) in members && members[(club, user)] == Owner
    then members[(club, user) := Member] else members
  }

  /** The unique index on the owner role: at most one owner row per club. */
  predicate OwnerIndexAllows(members: Members, club: ClubId, user: UserId) {
    forall k | k in members && k.0 == club && members[k] == Owner :: k.1 == user
  }

  /** UPDATE clubs SET owner_user_id, revision + 1 WHERE id AND owner_user_id = :current, which nobody checks. */
  function HandOver(clubs: Clubs, club: ClubId, current: UserId, target: UserId): Clubs {
    if club in clubs && clubs[club].owner == current
    then clubs[club := clubs[club].(owner := target, revision := clubs[club].revision + 1)] else clubs
  }

  /** transfer_ownership: demote, promote (an error when no row is hit or the index objects), hand over. */
  function TransferOwnership(t: Tables, club: ClubId, current: UserId, target: UserId): Result<Tables, Error> {
    var demoted := Demote(t.members, club, current);
    var promoted := SetRole(demoted, club, target, Owner);
    if promoted.None? || !OwnerIndexAllows(demoted, club, target) then Err(Conflict)
    else Ok(t.(members := promoted.value, clubs := HandOver(t.clubs, club, current, target)))
  }

  // ----- join requests

  predicate IsPending(requests: Requests, r: RequestId, club: ClubId, user: UserId) {
    r in requests && requests[r].club == club && requests[r].user == user && requests[r].status == Pending
  }

  /** Returns the pending request of the user, or inserts one under the new identifier. */
  function CreateOrGetPending(requests: Requests, club: ClubId, user: UserId, message: Option<string>, newId: RequestId)
    : Requests
  {
    if exists r :: r in requests && IsPending(requests, r, club, user) then requests
    else requests[newId := JoinRequest(club, user, Pending, message, None, None, None)]
  }

  /** UPDATE ... SET status = 'cancelled' WHERE club, user AND status = 'pending' */
  function CancelPending(requests: Requests, club: ClubId, user: UserId): Requests {
    map r | r in requests ::
      if IsPending(requests, r, club, user) then requests[r].(status := Cancelled) else requests[r]
  }

  /** UPDATE ... WHERE id AND status = 'pending'; None when no row is hit. */
  function Decide(requests: Requests, r: RequestId, status: RequestStatus, actor: UserId, reason: string, now: Time)
    : Option<Requests>
  {
    if r in requests && requests[r].status == Pending
    then
      Some(requests[r := requests[r].(status := status, decidedBy := Some(actor), reason := Some(reason),
                                      decidedAt := Some(now))])
    else None
  }

  // ----- clubs

  /** UPDATE clubs SET status = 'closed', revision + 1 WHERE status NOT IN ('closed', 'suspended') */
  function CloseClub(clubs: Clubs, club: ClubId, now: Time): Option<Clubs> {
    if club in clubs && clubs[club].status != Closed && clubs[club].status != Suspended
    then
      var c := clubs[club];
      Some(clubs[club := c.(status := Closed, closedAt := Some(now), revision := c.revision + 1)])
    else None
  }

  function Coalesce<T>(a: Option<T>, b: Option<T>): Option<T> {
    if a.Some? then a else b
  }

  /** The compare-and-set on the revision. */
  function UpdateClub(clubs: Clubs, club: ClubId, profile: Profile, status: ClubStatus, expected: nat, published: Option<Time>)
    : Result<Clubs, Error>
  {
    if club !in clubs || clubs[club].revision != expected then Err(StaleRevision)
    else if SlugTaken(clubs, profile.slug, club) then Err(DuplicateSlug)
    else
      var c := clubs[club];
      Ok(clubs[club := c.(profile := profile, status := status, revision := c.revision + 1,
                          publishedAt := Coalesce(c.publishedAt, published))])
  }
}
