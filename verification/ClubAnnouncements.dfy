/** Announcements to a club's members: a replay under the same key reaches those who have joined the audience since. */
module ClubAnnouncements {
  import opened Prelude

  datatype Role = Owner | Admin | Member

  datatype Membership = Membership(club: nat, user: nat, role: Role)

  datatype Audience = AllMembers | Admins

  datatype Draft = Draft(club: nat, author: nat, title: string, body: string, audience: Audience)

  datatype Announcement = Announcement(id: nat, draft: Draft, publishedAt: int)

  datatype State = State(
    announcements: map<string, Announcement>, recipients: set<(nat, nat)>, nextId: nat, members: set<Membership>)

  datatype Failure = IdempotencyConflict

  predicate Matches(members: set<Membership>, draft: Draft, user: nat) {
    exists m | m in members :: m.club == draft.club && m.user == user && (draft.audience.Admins? ==> !m.role.Member?)
  }

  /** Administrators are the owner and the admins. */
  lemma AudienceMeans(members: set<Membership>, draft: Draft, user: nat)
    ensures Matches(members, draft, user) <==>
              || Membership(draft.club, user, Owner) in members
              || Membership(draft.club, user, Admin) in members
              || (draft.audience == AllMembers && Membership(draft.club, user, Member) in members)
  {
    if Matches(members, draft, user) {
      var m :| m in members && m.club == draft.club && m.user == user && (draft.audience.Admins? ==> !m.role.Member?);
      assert m == Membership(draft.club, user, m.role);
      assert m.role == Owner || m.role == Admin || m.role == Member;
    }
  }

  function RecipientsOf(members: set<Membership>, draft: Draft): set<nat> {
    set m | m in members && m.club == draft.club && (draft.audience.Admins? ==> !m.role.Member?) :: m.user
  }

  /** INSERT ... ON CONFLICT (deduplication_key) DO UPDATE ... RETURNING: the row of this key, new or old. */
  function Upserted(s: State, key: string, draft: Draft, now: int): State {
    if key in s.announcements then s
    else s.(announcements := s.announcements[key := Announcement(s.nextId, draft, now)], nextId := s.nextId + 1)
  }

  predicate Conflicts(s: State, key: string, draft: Draft) {
    key in s.announcements && s.announcements[key].draft != draft
  }

  function Publish(s: State, key: string, draft: Draft, now: int): State {
    if Conflicts(s, key, draft) then s
    else
      var t := Upserted(s, key, draft, now);
      t.(recipients := t.recipients + WithEach(t.announcements[key].id, RecipientsOf(t.members, draft)))
  }

  datatype Op =
    | PublishAnnouncement(key: string, draft: Draft, now: int)
    | MembersChange(members: set<Membership>)

  function Apply(s: State, op: Op): State {
    match op
    case PublishAnnouncement(key, draft, now) => Publish(s, key, draft, now)
    case MembersChange(members) => s.(members := members)
  }

  function Run(ops: seq<Op>): State {
    if |ops| == 0 then State(map[], {}, 0, {}) else Apply(Run(ops[..|ops| - 1]), ops[|ops| - 1])
  }

  ghost predicate Inv(s: State) {
    && (forall k | k in s.announcements :: s.announcements[k].id < s.nextId)
    && (forall j, k | j in s.announcements && k in s.announcements && s.announcements[j].id == s.announcements[k].id :: j == k)
    && (forall p | p in s.recipients :: p.0 < s.nextId)
  }

  lemma {:induction false} ReachableInv(ops: seq<Op>)
    ensures Inv(Run(ops))
  {
    if |ops| > 0 {
      ReachableInv(ops[..|ops| - 1]);
    }
  }

  ghost predicate IsRecipient(s: State, key: string, user: nat) {
    key in s.announcements && (s.announcements[key].id, user) in s.recipients
  }

  /** Publication or replay i went through and reached the user. */
  ghost predicate Reached(ops: seq<Op>, i: int, key: string, user: nat) {
    && 0 <= i < |ops| && ops[i].PublishAnnouncement? && ops[i].key == key
    && !Conflicts(Run(ops[..i]), key, ops[i].draft)
    && Matches(Run(ops[..i]).members, ops[i].draft, user)
  }

  /** The recipients are exactly those who matched the audience at the publication or at one of its replays. */
  lemma {:induction false} RecipientsAreThoseReached(ops: seq<Op>, key: string, user: nat)
    ensures IsRecipient(Run(ops), key, user) <==> exists i :: Reached(ops, i, key, user)
  {
    if |ops| > 0 {
      var n := |ops| - 1;
      var before := ops[..n];
      ReachableInv(before);
      RecipientsAreThoseReached(before, key, user);
      StepReaches(Run(before), ops[n], key, user);
      forall i | 0 <= i < n ensures Reached(ops, i, key, user) <==> Reached(before, i, key, user) {
        assert before[..i] == ops[..i];
      }
      assert Reached(ops, n, key, user) <==>
             ops[n].PublishAnnouncement? && ops[n].key == key && !Conflicts(Run(before), key, ops[n].draft)
             && Matches(Run(before).members, ops[n].draft, user);
      if IsRecipient(Run(before), key, user) {
        var i :| Reached(before, i, key, user);
        assert Reached(ops, i, key, user);
      }
    }
  }

  /** One step adds a recipient only when it publishes or replays this announcement to someone who matches, and it
      takes none away. */
  lemma StepReaches(s: State, op: Op, key: string, user: nat)
    requires Inv(s)
    ensures IsRecipient(Apply(s, op), key, user) <==>
              || IsRecipient(s, key, user)
              || (op.PublishAnnouncement? && op.key == key && !Conflicts(s, key, op.draft) && Matches(s.members, op.draft, user))
    ensures key in s.announcements ==>
              key in Apply(s, op).announcements && Apply(s, op).announcements[key] == s.announcements[key]
  {
    if op.PublishAnnouncement? {
      assert user in RecipientsOf(s.members, op.draft) <==> Matches(s.members, op.draft, user);
      assert (s.nextId, user) !in s.recipients;
    }
  }

  class OrganizerContentRepository {
    var s: State

    constructor (s: State)
      ensures this.s == s
    {
      this.s := s;
    }

    /** create_club_announcement; a conflict rolls back. */
    method CreateClubAnnouncement(key: string, draft: Draft, now: int) returns (r: Result<Announcement, Failure>)
      modifies this
      ensures s == Publish(old(s), key, draft, now)
      ensures r.Err? <==> Conflicts(old(s), key, draft)
      ensures r.Ok? ==> key in s.announcements && r.value == s.announcements[key] && r.value.draft == draft
      ensures key !in old(s).announcements ==> r == Ok(Announcement(old(s).nextId, draft, now))
      ensures key in old(s).announcements ==>
                s.announcements == old(s).announcements
                && if s.announcements[key].draft == draft then r.Ok? else r.Err? && s == old(s)
    {
      var before := s;
      s := Upserted(s, key, draft, now);
      var item := s.announcements[key];
      if item.draft != draft {
        s := before;
        return Err(IdempotencyConflict);
      }
      var recipients := RecipientsOf(s.members, draft);
      s := s.(recipients := s.recipients + WithEach(item.id, recipients));
      return Ok(item);
    }
  }
}
