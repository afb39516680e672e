/** What each service operation does to the tables: guards first, then statements, all or nothing. */
module ClubRules {
  import opened Prelude
  import opened ClubTables

  datatype Principal = Principal(user: UserId, active: bool, emailVerified: bool)

  datatype Change<T> = Keep | Set(value: T)

  /** The supplied fields of a profile patch, already normalised; a required field may be set to None by mistake. */
  datatype Patch = Patch(
    revision: nat,
    slug: Change<Option<string>>,
    name: Change<Option<string>>,
    description: Change<Option<string>>,
    category: Change<Option<string>>,
    country: Change<Option<string>>,
    city: Change<Option<string>>,
    policy: Change<Option<Policy>>,
    socialLinks: Change<Option<map<string, string>>>,
    logo: Change<Option<nat>>,
    cover: Change<Option<nat>>)

  datatype Moderation = Suspend | Unpublish | Restore

  /** One committed or rolled back request.  `eligible` and `resolved` are the verdicts of services outside the model. */
  datatype Op =
    | Create(p: Principal, club: ClubId, profile: Profile, eligible: bool, resolved: bool, now: Time)
    | Update(p: Principal, club: ClubId, patch: Patch, resolved: bool, now: Time)
    | Join(p: Principal, club: ClubId, message: Option<string>, newId: RequestId)
    | Leave(p: Principal, club: ClubId)
    | Approve(p: Principal, club: ClubId, request: RequestId, reason: string, now: Time)
    | Reject(p: Principal, club: ClubId, request: RequestId, reason: string, now: Time)
    | ChangeRole(p: Principal, club: ClubId, target: UserId, role: Role, reason: string)
    | Transfer(p: Principal, club: ClubId, target: UserId, eligible: bool, reason: string)
    | Close(p: Principal, club: ClubId, reason: string, now: Time)
    | Moderate(club: ClubId, action: Moderation, now: Time)

  /** Identifiers are generated unused, and the schema of a role change admits two roles only. */
  predicate WellFormed(t: Tables, op: Op) {
    && (op.Create? ==> op.club !in t.clubs)
    && (op.Join? ==> op.newId !in t.requests)
    && (op.ChangeRole? ==> op.role != Owner)
  }

  predicate ReasonOk(reason: string) {
    3 <= |reason| <= 500
  }

  predicate Frozen(c: Club) {
    c.status == Suspended || c.status == Closed
  }

  predicate CanManage(t: Tables, p: Principal, club: ClubId)
    requires club in t.clubs
  {
    && p.active && !Frozen(t.clubs[club])
    && (p.user == t.clubs[club].owner
        || ((club, p.user) in t.members && t.members[(club, p.user)] in {Owner, Admin}))
  }

  predicate OwnerMay(t: Tables, p: Principal, club: ClubId)
    requires club in t.clubs
  {
    p.active && !Frozen(t.clubs[club]) && t.clubs[club].owner == p.user
  }

  function Pick<T>(c: Change<T>, current: T): T {
    if c.Set? then c.value else current
  }

  /** _patched: fields that may not be empty refuse None. */
  function Patched(profile: Profile, patch: Patch): Option<Profile> {
    if patch.slug == Set(None) || patch.name == Set(None) || patch.policy == Set(None) || patch.socialLinks == Set(None)
    then None
    else
      Some(Profile(
             Pick(patch.slug, Some(profile.slug)).value,
             Pick(patch.name, Some(profile.name)).value,
             Pick(patch.description, profile.description),
             Pick(patch.category, profile.category),
             Pick(patch.country, profile.country),
             Pick(patch.city, profile.city),
             Pick(patch.policy, Some(profile.policy)).value,
             Pick(patch.socialLinks, Some(profile.socialLinks)).value,
             Pick(patch.logo, profile.logo),
             Pick(patch.cover, profile.cover)))
  }

  /** resolve_references: a city needs a country, and every reference must be found. */
  predicate ReferencesOk(p: Profile, resolved: bool) {
    (p.city.Some? ==> p.country.Some?) && resolved
  }

  function CreateRule(t: Tables, op: Op): Result<Tables, Error>
    requires op.Create?
  {
    if !op.eligible then Err(Ineligible)
    else if !ReferencesOk(op.profile, op.resolved) then Err(InvalidClub)
    else if SlugTaken(t.clubs, op.profile.slug, op.club) then Err(DuplicateSlug)
    else
      var complete := MissingFields(op.profile) == [];
      Ok(t.(
         clubs := t.clubs[op.club := Club(op.p.user, op.profile, if complete then Published else Draft, 1,
                                          if complete then Some(op.now) else None, None, None)],
         members := t.members[(op.club, op.p.user) := Owner]))
  }

  function UpdateRule(t: Tables, op: Op): Result<Tables, Error>
    requires op.Update?
  {
    if op.club !in t.clubs then Err(NotFound)
    else if !CanManage(t, op.p, op.club) then Err(Forbidden)
    else
      var c := t.clubs[op.club];
      if op.patch.revision != c.revision then Err(StaleRevision)
      else
        var candidate := Patched(c.profile, op.patch);
        if candidate.None? then Err(InvalidClub)
        else
          var complete := MissingFields(candidate.value) == [];
          if c.status != Draft && !complete then Err(InvalidClub)
          else if !ReferencesOk(candidate.value, op.resolved) then Err(InvalidClub)
          else
            var status := if c.status == Draft && complete then Published else c.status;
            var published := if c.status == Draft && status == Published then Some(op.now) else None;
            var clubs := UpdateClub(t.clubs, op.club, candidate.value, status, op.patch.revision, published);
            if clubs.Err? then Err(clubs.error) else Ok(t.(clubs := clubs.value))
  }

  function JoinRule(t: Tables, op: Op): Result<Tables, Error>
    requires op.Join?
  {
    if !op.p.active then Err(Forbidden)
    else if !op.p.emailVerified then Err(EmailVerificationRequired)
    else if op.club !in t.clubs then Err(NotFound)
    else if t.clubs[op.club].status != Published then Err(Forbidden)
    else if (op.club, op.p.user) in t.members then Ok(t)
    else if t.clubs[op.club].profile.policy == OpenToAll
    then Ok(t.(members := AddMember(t.members, op.club, op.p.user)))
    else Ok(t.(requests := CreateOrGetPending(t.requests, op.club, op.p.user, op.message, op.newId)))
  }

  function LeaveRule(t: Tables, op: Op): Result<Tables, Error>
    requires op.Leave?
  {
    if !op.p.active then Err(Forbidden)
    else if op.club !in t.clubs then Err(NotFound)
    else if Frozen(t.clubs[op.club]) then Err(Forbidden)
    else if (op.club, op.p.user) !in t.members then
      if exists r :: r in t.requests && IsPending(t.requests, r, op.club, op.p.user)
      then Ok(t.(requests := CancelPending(t.requests, op.club, op.p.user)))
      else Err(NotFound)
    else if t.members[(op.club, op.p.user)] == Owner || t.clubs[op.club].owner == op.p.user then Err(SoleOwnerExit)
    else Ok(t.(members := RemoveMember(t.members, op.club, op.p.user)))
  }

  function ApproveRule(t: Tables, op: Op): Result<Tables, Error>
    requires op.Approve?
  {
    if !ReasonOk(op.reason) then Err(InvalidReason)
    else if op.club !in t.clubs then Err(NotFound)
    else if !CanManage(t, op.p, op.club) then Err(Forbidden)
    else if op.request !in t.requests || t.requests[op.request].club != op.club then Err(NotFound)
    else
      var request := t.requests[op.request];
      if request.status == Approved && (op.club, request.user) in t.members then Ok(t)
      else if request.status != Pending then Err(Conflict)
      else
        var decided := Decide(t.requests, op.request, Approved, op.p.user, op.reason, op.now);
        if decided.None? then Err(Conflict)
        else Ok(t.(members := AddMember(t.members, op.club, request.user), requests := decided.value))
  }

  function RejectRule(t: Tables, op: Op): Result<Tables, Error>
    requires op.Reject?
  {
    if !ReasonOk(op.reason) then Err(InvalidReason)
    else if op.club !in t.clubs then Err(NotFound)
    else if !CanManage(t, op.p, op.club) then Err(Forbidden)
    else if op.request !in t.requests || t.requests[op.request].club != op.club then Err(NotFound)
    else if t.requests[op.request].status == Rejected then Ok(t)
    else if t.requests[op.request].status != Pending then Err(Conflict)
    else
      var decided := Decide(t.requests, op.request, Rejected, op.p.user, op.reason, op.now);
      if decided.None? then Err(Conflict) else Ok(t.(requests := decided.value))
  }

  function ChangeRoleRule(t: Tables, op: Op): Result<Tables, Error>
    requires op.ChangeRole?
  {
    if !ReasonOk(op.reason) then Err(InvalidReason)
    else if op.club !in t.clubs then Err(NotFound)
    else if !OwnerMay(t, op.p, op.club) then Err(Forbidden)
    else if (op.club, op.target) !in t.members then Err(NotFound)
    else if t.members[(op.club, op.target)] == Owner then Err(Conflict)
    else if t.members[(op.club, op.target)] == op.role then Ok(t)
    else
      var members := SetRole(t.members, op.club, op.target, op.role);
      if members.None? then Err(Conflict) else Ok(t.(members := members.value))
  }

  function TransferRule(t: Tables, op: Op): Result<Tables, Error>
    requires op.Transfer?
  {
    if !ReasonOk(op.reason) then Err(InvalidReason)
    else if op.club !in t.clubs then Err(NotFound)
    else if !OwnerMay(t, op.p, op.club) then Err(Forbidden)
    else if (op.club, op.p.user) !in t.members || t.members[(op.club, op.p.user)] != Owner
            || (op.club, op.target) !in t.members
    then Err(NotFound)
    else if op.target == op.p.user then Err(Conflict)
    else if !op.eligible then Err(Ineligible)
    else TransferOwnership(t, op.club, op.p.user, op.target)
  }

  function CloseRule(t: Tables, op: Op): Result<Tables, Error>
    requires op.Close?
  {
    if !ReasonOk(op.reason) then Err(InvalidReason)
    else if op.club !in t.clubs then Err(NotFound)
    else if !OwnerMay(t, op.p, op.club) then Err(Forbidden)
    else
      var clubs := CloseClub(t.clubs, op.club, op.now);
      if clubs.None? then Err(Forbidden) else Ok(t.(clubs := clubs.value))
  }

  /** The moderators' three status changes of clubs, which leave the revision alone. */
  function ModerateRule(t: Tables, op: Op): Result<Tables, Error>
    requires op.Moderate?
  {
    if op.club !in t.clubs then Err(NotFound)
    else
      var c := t.clubs[op.club];
      match op.action
      case Suspend =>
        if c.status != Published then Err(Conflict)
        else Ok(t.(clubs := t.clubs[op.club := c.(status := Suspended, suspendedAt := Some(op.now))]))
      case Unpublish =>
        if c.status != Published then Err(Conflict)
        else Ok(t.(clubs := t.clubs[op.club := c.(status := Unpublished)]))
      case Restore =>
        if c.status != Suspended && c.status != Unpublished then Err(Conflict)
        else Ok(t.(clubs := t.clubs[op.club := c.(status := Published, suspendedAt := None,
                                                  publishedAt := Coalesce(c.publishedAt, Some(op.now)))]))
  }

  function Apply(t: Tables, op: Op): Result<Tables, Error> {
    match op
    case Create(_, _, _, _, _, _) => CreateRule(t, op)
    case Update(_, _, _, _, _) => UpdateRule(t, op)
    case Join(_, _, _, _) => JoinRule(t, op)
    case Leave(_, _) => LeaveRule(t, op)
    case Approve(_, _, _, _, _) => ApproveRule(t, op)
    case Reject(_, _, _, _, _) => RejectRule(t, op)
    case ChangeRole(_, _, _, _, _) => ChangeRoleRule(t, op)
    case Transfer(_, _, _, _, _) => TransferRule(t, op)
    case Close(_, _, _, _) => CloseRule(t, op)
    case Moderate(_, _, _) => ModerateRule(t, op)
  }

  /** A request that raises is rolled back; one that is not well formed cannot be made. */
  function Step(t: Tables, op: Op): Tables {
    if WellFormed(t, op) && Apply(t, op).Ok? then Apply(t, op).value else t
  }

  const EMPTY := Tables(map[], map[], map[])

  function Exec(t: Tables, ops: seq<Op>): Tables {
    if ops == [] then t else Step(Exec(t, ops[..|ops| - 1]), ops[|ops| - 1])
  }
}
