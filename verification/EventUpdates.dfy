/** Updates published to an event's registrants: deduplicated by key, with the audience fixed at first publication. */
module EventUpdates {
  import opened Prelude
  import opened Pagination

  datatype RegistrationState = Confirmed | CashPending | Waitlisted | Cancelled | Expired

  datatype Registration = Registration(event: nat, user: nat, state: RegistrationState)

  datatype Audience = AllActive | Only(state: RegistrationState)

  datatype Draft = Draft(event: nat, author: nat, title: string, body: string, audience: Audience, revision: int)

  datatype Update = Update(id: nat, draft: Draft, publishedAt: int)

  /** Updates by deduplication key, which is unique; recipients as pairs of update and user. */
  datatype State = State(
    updates: map<string, Update>, recipients: set<(nat, nat)>, nextId: nat,
    registrations: set<Registration>, revisions: map<nat, int>)

  datatype Failure = IdempotencyConflict | StaleRevision

  // ----- the statements

  predicate InAudience(state: RegistrationState, audience: Audience) {
    match audience
    case AllActive => state.Confirmed? || state.CashPending? || state.Waitlisted?
    case Only(wanted) => state == wanted
  }

  /** The user's registration matches the draft's audience now. */
  predicate Matches(registrations: set<Registration>, draft: Draft, user: nat) {
    exists r | r in registrations :: r.event == draft.event && r.user == user && InAudience(r.state, draft.audience)
  }

  /** All active registrations are the confirmed, the cash-pending and the waitlisted ones, taken together; one that was
      cancelled or has expired is reached only when asked for by its state. */
  lemma ActiveMeans(registrations: set<Registration>, draft: Draft, user: nat)
    ensures Matches(registrations, draft, user) <==>
              match draft.audience
              case AllActive =>
                || Registration(draft.event, user, Confirmed) in registrations
                || Registration(draft.event, user, CashPending) in registrations
                || Registration(draft.event, user, Waitlisted) in registrations
              case Only(state) => Registration(draft.event, user, state) in registrations
  {
    if Matches(registrations, draft, user) {
      var r :| r in registrations && r.event == draft.event && r.user == user && InAudience(r.state, draft.audience);
      assert r == Registration(draft.event, user, r.state);
    }
  }

  function RecipientsOf(registrations: set<Registration>, draft: Draft): set<nat> {
    set r | r in registrations && r.event == draft.event && InAudience(r.state, draft.audience) :: r.user
  }

  function PublishResult(s: State, key: string, draft: Draft, now: int): Result<Update, Failure> {
    if key in s.updates then
      if s.updates[key].draft == draft then Ok(s.updates[key]) else Err(IdempotencyConflict)
    else if draft.event in s.revisions && s.revisions[draft.event] == draft.revision
    then Ok(Update(s.nextId, draft, now))
    else Err(StaleRevision)
  }

  function Publish(s: State, key: string, draft: Draft, now: int): State {
    if key in s.updates || PublishResult(s, key, draft, now).Err? then s
    else
      s.(updates := s.updates[key := Update(s.nextId, draft, now)], nextId := s.nextId + 1,
         recipients := s.recipients + WithEach(s.nextId, RecipientsOf(s.registrations, draft)))
  }

  // ----- runs: publications and replays, while registrations and events change under them

  datatype Op =
    | PublishUpdate(key: string, draft: Draft, now: int)
    | Elsewhere(registrations: set<Registration>, revisions: map<nat, int>)

  function Apply(s: State, op: Op): State {
    match op
    case PublishUpdate(key, draft, now) => Publish(s, key, draft, now)
    case Elsewhere(registrations, revisions) => s.(registrations := registrations, revisions := revisions)
  }

  function Run(ops: seq<Op>): State {
    if |ops| == 0 then State(map[], {}, 0, {}, map[]) else Apply(Run(ops[..|ops| - 1]), ops[|ops| - 1])
  }

  ghost predicate Inv(s: State) {
    && (forall k | k in s.updates :: s.updates[k].id < s.nextId)
    && (forall j, k | j in s.updates && k in s.updates && s.updates[j].id == s.updates[k].id :: j == k)
    && (forall p | p in s.recipients :: p.0 < s.nextId)
  }

  lemma {:induction false} ReachableInv(ops: seq<Op>)
    ensures Inv(Run(ops))
  {
    if |ops| > 0 {
      ReachableInv(ops[..|ops| - 1]);
    }
  }

  /** At this operation the key was used for the first time with success. */
  ghost predicate FirstPublished(ops: seq<Op>, i: int, key: string) {
    && 0 <= i < |ops| && ops[i].PublishUpdate? && ops[i].key == key
    && key !in Run(ops[..i]).updates && key in Apply(Run(ops[..i]), ops[i]).updates
  }

  ghost predicate IsRecipient(s: State, key: string, user: nat) {
    key in s.updates && (s.updates[key].id, user) in s.recipients
  }

  /** The draft was written against the event as it is. */
  predicate Current(s: State, draft: Draft) {
    draft.event in s.revisions && s.revisions[draft.event] == draft.revision
  }

  /** Whatever registrations change and whatever is replayed later: an update stays as first published, which was
      against the event's revision then, and its recipients are those who matched its audience then. */
  lemma {:induction false} AudienceIsSnapshot(ops: seq<Op>, key: string, user: nat)
    requires key in Run(ops).updates
    ensures exists i :: FirstPublished(ops, i, key)
              && Run(ops).updates[key] == Update(Run(ops[..i]).nextId, ops[i].draft, ops[i].now)
              && Current(Run(ops[..i]), ops[i].draft)
              && (IsRecipient(Run(ops), key, user) <==> Matches(Run(ops[..i]).registrations, ops[i].draft, user))
  {
    if |ops| > 0 {
      var n := |ops| - 1;
      var before := ops[..n];
      ReachableInv(before);
      if key in Run(before).updates {
        AudienceIsSnapshot(before, key, user);
        var i :| FirstPublished(before, i, key)
          && Run(before).updates[key] == Update(Run(before[..i]).nextId, before[i].draft, before[i].now)
          && Current(Run(before[..i]), before[i].draft)
          && (IsRecipient(Run(before), key, user) <==> Matches(Run(before[..i]).registrations, before[i].draft, user));
        assert before[..i] == ops[..i];
        OthersKeepRecipients(Run(before), ops[n], key, user);
        assert FirstPublished(ops, i, key);
      } else {
        FirstSnapshot(Run(before), key, ops[n].draft, ops[n].now, user);
        assert FirstPublished(ops, n, key);
      }
    }
  }

  lemma FirstSnapshot(s: State, key: string, draft: Draft, now: int, user: nat)
    requires Inv(s) && key !in s.updates && key in Publish(s, key, draft, now).updates
    ensures IsRecipient(Publish(s, key, draft, now), key, user) <==> Matches(s.registrations, draft, user)
    ensures Current(s, draft)
  {
    assert user in RecipientsOf(s.registrations, draft) <==> Matches(s.registrations, draft, user);
    assert (s.nextId, user) !in s.recipients;
  }

  lemma OthersKeepRecipients(s: State, op: Op, key: string, user: nat)
    requires Inv(s) && key in s.updates
    ensures key in Apply(s, op).updates && Apply(s, op).updates[key] == s.updates[key]
    ensures IsRecipient(Apply(s, op), key, user) <==> IsRecipient(s, key, user)
  {
  }

  // ----- the list

  const PAGE := 100

  datatype ListKey = ListKey(publishedAt: int, id: nat)

  /** ORDER BY published_at DESC, id DESC */
  predicate Newer(a: ListKey, b: ListKey) {
    a.publishedAt > b.publishedAt || (a.publishedAt == b.publishedAt && a.id > b.id)
  }

  lemma NewerIsTotal()
    ensures StrictTotal(Newer)
  {
  }

  function KeyOf(u: Update): ListKey {
    ListKey(u.publishedAt, u.id)
  }

  predicate Visible(s: State, event: nat, user: nat, manager: bool, key: string)
    requires key in s.updates
  {
    s.updates[key].draft.event == event && (manager || (s.updates[key].id, user) in s.recipients)
  }

  function VisibleKeys(s: State, event: nat, user: nat, manager: bool): set<ListKey> {
    set key | key in s.updates && Visible(s, event, user, manager, key) :: KeyOf(s.updates[key])
  }

  ghost function List(s: State, event: nat, user: nat, manager: bool): seq<ListKey> {
    NewerIsTotal();
    var visible := VisibleKeys(s, event, user, manager);
    Sorted(Newer, visible)[..Min(PAGE, |visible|)]
  }

  lemma ListIs(s: State, event: nat, user: nat, manager: bool)
    ensures var list := List(s, event, user, manager);
            && |list| <= 100 && (forall k | k in list :: k in VisibleKeys(s, event, user, manager))
            && forall i, j | 0 <= i < j < |list| ::
              || list[i].publishedAt > list[j].publishedAt
              || (list[i].publishedAt == list[j].publishedAt && list[i].id > list[j].id)
  {
    NewerIsTotal();
    var all := Sorted(Newer, VisibleKeys(s, event, user, manager));
    SortedLists(Newer, VisibleKeys(s, event, user, manager));
    forall i, j | 0 <= i < j < |all| ensures Newer(all[i], all[j]) {
    }
  }

  /** What a user who does not manage the event is shown: an update of it is listed exactly when their registration
      matched its audience as it was first published and fewer than 100 newer ones are there for them. */
  lemma ListedIffMatched(ops: seq<Op>, key: string, user: nat)
    requires key in Run(ops).updates
    ensures var s := Run(ops); var u := s.updates[key]; var visible := VisibleKeys(s, u.draft.event, user, false);
            exists i :: FirstPublished(ops, i, key) && ops[i].draft == u.draft
              && (KeyOf(u) in List(s, u.draft.event, user, false) <==>
                    Matches(Run(ops[..i]).registrations, u.draft, user) && |EarlierThan(Newer, visible, KeyOf(u))| < 100)
  {
    var s := Run(ops);
    var u := s.updates[key];
    NewerIsTotal();
    AudienceIsSnapshot(ops, key, user);
    ReachableInv(ops);
    VisibleIs(s, key, user);
    AmongFirst(Newer, VisibleKeys(s, u.draft.event, user, false), PAGE, KeyOf(u));
  }

  lemma VisibleIs(s: State, key: string, user: nat)
    requires Inv(s) && key in s.updates
    ensures KeyOf(s.updates[key]) in VisibleKeys(s, s.updates[key].draft.event, user, false) <==> IsRecipient(s, key, user)
  {
  }

  // ----- the repository

  class OrganizerContentRepository {
    var s: State
    ghost var trace: seq<Op>

    constructor ()
      ensures Valid() && trace == []
    {
      s, trace := State(map[], {}, 0, {}, map[]), [];
    }

    /** What is stored is what the publications so far, and the changes made elsewhere, have made of empty tables. */
    ghost predicate Valid()
      reads this
    {
      s == Run(trace)
    }

    /** Registrations and events change in other services. */
    method ChangeElsewhere(registrations: set<Registration>, revisions: map<nat, int>)
      requires Valid()
      modifies this
      ensures Valid() && trace == old(trace) + [Elsewhere(registrations, revisions)]
      ensures s == old(s).(registrations := registrations, revisions := revisions)
    {
      s := s.(registrations := registrations, revisions := revisions);
      Remember(Elsewhere(registrations, revisions));
    }

    ghost method Remember(op: Op)
      requires s == Apply(Run(trace), op)
      modifies this`trace
      ensures Valid() && trace == old(trace) + [op]
    {
      assert (trace + [op])[..|trace|] == trace;
      trace := trace + [op];
    }

    /** create_event_update.  A key publishes once, against the event's current revision, to those who match then; any
        replay answers what was published, and other content under the key is a conflict.  Nothing that was published
        before is touched. */
    method CreateEventUpdate(key: string, draft: Draft, now: int) returns (r: Result<Update, Failure>)
      requires Valid()
      modifies this
      ensures Valid() && trace == old(trace) + [PublishUpdate(key, draft, now)]
      ensures r.Ok? ==> key in s.updates && s.updates[key] == r.value && r.value.draft == draft
      ensures key in old(s).updates ==>
                s == old(s) && if s.updates[key].draft == draft then r.Ok? else r == Err(IdempotencyConflict)
      ensures key !in old(s).updates && !Current(old(s), draft) ==> r == Err(StaleRevision) && s == old(s)
      ensures key !in old(s).updates && Current(old(s), draft) ==>
                && r == Ok(Update(old(s).nextId, draft, now))
                && forall user :: IsRecipient(s, key, user) <==> Matches(old(s).registrations, draft, user)
      ensures forall k, user | k in old(s).updates ::
                && k in s.updates && s.updates[k] == old(s).updates[k]
                && (IsRecipient(s, k, user) <==> IsRecipient(old(s), k, user))
    {
      ReachableInv(trace);
      ghost var before := s;
      if key in s.updates {
        r := if s.updates[key].draft == draft then Ok(s.updates[key]) else Err(IdempotencyConflict);
      } else if !(draft.event in s.revisions && s.revisions[draft.event] == draft.revision) {
        r := Err(StaleRevision);
      } else {
        var item := Upsert(key, draft, now);
        // The row is the one just inserted, so its content is the draft's.
        assert item.draft == draft;
        AddRecipients(item);
        r := Ok(item);
        forall user ensures IsRecipient(s, key, user) <==> Matches(before.registrations, draft, user) {
          FirstSnapshot(before, key, draft, now, user);
        }
      }
      forall k, user | k in before.updates
        ensures k in s.updates && s.updates[k] == before.updates[k] && (IsRecipient(s, k, user) <==> IsRecipient(before, k, user))
      {
        OthersKeepRecipients(before, PublishUpdate(key, draft, now), k, user);
      }
      Remember(PublishUpdate(key, draft, now));
    }

    /** INSERT ... ON CONFLICT (deduplication_key) DO UPDATE ... RETURNING: the row of this key, new or old. */
    method Upsert(key: string, draft: Draft, now: int) returns (item: Update)
      modifies `s
      ensures key in s.updates && item == s.updates[key]
      ensures s == if key in old(s).updates then old(s)
                   else old(s).(updates := old(s).updates[key := Update(old(s).nextId, draft, now)], nextId := old(s).nextId + 1)
    {
      if key !in s.updates {
        s := s.(updates := s.updates[key := Update(s.nextId, draft, now)], nextId := s.nextId + 1);
      }
      item := s.updates[key];
    }

    /** The users who match now, each once, ON CONFLICT DO NOTHING. */
    method AddRecipients(item: Update)
      modifies `s
      ensures s == old(s).(recipients := old(s).recipients + WithEach(item.id, RecipientsOf(old(s).registrations, item.draft)))
    {
      var users := RecipientsOf(s.registrations, item.draft);
      s := s.(recipients := s.recipients + WithEach(item.id, users));
    }

    /** At most a hundred, newest first. */
    method ListEvent(event: nat, user: nat, manager: bool) returns (list: seq<ListKey>)
      ensures list == List(s, event, user, manager) && |list| <= 100
      ensures forall i, j | 0 <= i < j < |list| ::
                || list[i].publishedAt > list[j].publishedAt
                || (list[i].publishedAt == list[j].publishedAt && list[i].id > list[j].id)
      ensures forall k | k in list :: exists key | key in s.updates ::
                && s.updates[key].publishedAt == k.publishedAt && s.updates[key].id == k.id
                && s.updates[key].draft.event == event && (manager || (k.id, user) in s.recipients)
    {
      NewerIsTotal();
      ListIs(s, event, user, manager);
      list := SelectFirst(Newer, VisibleKeys(s, event, user, manager), PAGE);
    }
  }
}
