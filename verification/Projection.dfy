/** Projecting outbox events into notifications: at-least-once delivery, exactly-once effect. */
module Projection {
  import opened Prelude

  // ----- what comes in

  /** One value of the event's JSON payload. */
  datatype Field = Absent | NotText | Text(text: string)

  datatype Payload = Payload(recipientUserId: Field, userId: Field, authTokenId: Field, localeHint: Field)

  /** details stands for parameters, action path and source, which are computed from the event alone; None when one of
      the identifiers they are read from is malformed. */
  datatype OutboxEvent = OutboxEvent(id: nat, eventType: string, payload: Payload, details: Option<string>)

  /** The notify_* columns of a profile; a user may have no profile. */
  datatype Profile = Profile(notifyEvent: bool, notifyCommunity: bool)

  type Users = map<nat, Option<Profile>>

  /** How the application and the database read identifiers. */
  datatype Readers = Readers(uuid: string -> Option<nat>, castUuid: string -> Option<nat>)

  // ----- what goes out

  datatype Category = Security | Event | Community

  datatype Notification = Notification(
    recipient: nat, typeKey: string, titleKey: string, bodyKey: string, details: string, eventId: nat)

  datatype Intent = Intent(authTokenId: Option<nat>, localeHint: string)

  /** What one event leaves behind, without generated ids and times: a notification with its in-app delivery, and an
      e-mail delivery with its intent where that is wanted. */
  datatype Projected = Projected(notification: Notification, email: Option<Intent>)

  datatype Failure = RecipientMissing | UnsupportedEvent | MalformedId

  // ----- the reference: one event

  const SECURITY_EVENTS := {"identity.email_verification_requested", "identity.password_reset_requested"}
  const REGISTRATION_EVENTS := {"registration.confirmed", "registration.cash_pending", "registration.waitlisted",
                                "registration.cancelled", "registration.expired"}
  const COMMUNITY_EVENTS := {"membership.requested", "membership.approved", "membership.rejected", "membership.removed"}
  const EVENT_EVENTS := {"event.updated", "event.cancelled"}
  const MODERATION_EVENTS := {"moderation.case_updated", "moderation.action_taken"}

  function CategoryOf(eventType: string): Option<Category> {
    if eventType in SECURITY_EVENTS || eventType in MODERATION_EVENTS then Some(Security)
    else if eventType in REGISTRATION_EVENTS || eventType in EVENT_EVENTS then Some(Event)
    else if eventType in COMMUNITY_EVENTS || eventType == "club.announcement_published" then Some(Community)
    else if eventType == "event.update_published" then Some(Event)
    else None
  }

  function CategoryName(category: Category): string {
    match category
    case Security => "security"
    case Event => "event"
    case Community => "community"
  }

  /** recipient_user_id, or user_id where the first key is absent. */
  function RecipientOf(readers: Readers, payload: Payload): Result<nat, Failure> {
    var raw := if payload.recipientUserId.Absent? then payload.userId else payload.recipientUserId;
    match raw
    case Text(text) => (match readers.uuid(text) case Some(id) => Ok(id) case None => Err(MalformedId))
    case _ => Err(RecipientMissing)
  }

  function Wants(profile: Option<Profile>, category: Category): bool {
    match category
    case Security => true
    case Event => profile.Some? ==> profile.value.notifyEvent
    case Community => profile.Some? ==> profile.value.notifyCommunity
  }

  function LocaleOf(hint: Field): string {
    match hint
    case Text(text) => if text == "ar" || text == "en" || text == "fr" || text == "tr" then text else "en"
    case _ => "en"
  }

  function IntentOf(readers: Readers, payload: Payload): Result<Intent, Failure> {
    match payload.authTokenId
    case Text(text) =>
      (match readers.castUuid(text)
       case Some(id) => Ok(Intent(Some(id), LocaleOf(payload.localeHint)))
       case None => Err(MalformedId))
    case _ => Ok(Intent(None, LocaleOf(payload.localeHint)))
  }

  function NoteFor(event: OutboxEvent, recipient: nat, category: Category): (note: Notification)
    requires event.details.Some?
  {
    Notification(recipient, event.eventType, "notifications." + CategoryName(category) + ".title",
                 "notifications." + event.eventType + ".body", event.details.value, event.id)
  }

  /** What an event that has not been projected yet comes to: rows, nothing because the recipient is gone, or an error
      that leaves nothing. */
  function Projecting(readers: Readers, users: Users, event: OutboxEvent): Result<Option<Projected>, Failure> {
    match RecipientOf(readers, event.payload)
    case Err(e) => Err(e)
    case Ok(recipient) =>
      match (CategoryOf(event.eventType), event.details)
      case (None, _) => Err(UnsupportedEvent)
      case (_, None) => Err(MalformedId)
      case (Some(category), Some(_)) =>
        if recipient !in users then Ok(None)
        else
          var note := NoteFor(event, recipient, category);
          if !Wants(users[recipient], category) then Ok(Some(Projected(note, None)))
          else
            match IntentOf(readers, event.payload)
            case Err(e) => Err(e)
            case Ok(intent) => Ok(Some(Projected(note, Some(intent))))
  }

  // ----- the reference: a run of deliveries

  type View = map<nat, Projected>

  /** One delivery of an event: the users as they are then, and whether the transaction was committed. */
  datatype Attempt = Attempt(event: OutboxEvent, users: Users, committed: bool)

  /** What a delivery would add, were its event not there yet. */
  datatype Effect = Effect(id: nat, rows: Option<Projected>)

  function EffectOf(readers: Readers, a: Attempt): Effect {
    match Projecting(readers, a.users, a.event)
    case Ok(rows) => Effect(a.event.id, if a.committed then rows else None)
    case Err(_) => Effect(a.event.id, None)
  }

  function Deliver(view: View, e: Effect): View {
    if e.id in view || e.rows.None? then view else view[e.id := e.rows.value]
  }

  function Run(effects: seq<Effect>): View {
    if |effects| == 0 then map[] else Deliver(Run(effects[..|effects| - 1]), effects[|effects| - 1])
  }

  function EffectsOf(readers: Readers, attempts: seq<Attempt>): seq<Effect> {
    seq(|attempts|, i requires 0 <= i < |attempts| => EffectOf(readers, attempts[i]))
  }

  // ----- theorems

  /** At this delivery, and none before, the event took effect. */
  ghost predicate First(effects: seq<Effect>, i: int, id: nat) {
    && 0 <= i < |effects| && effects[i].id == id && effects[i].rows.Some?
    && forall j | 0 <= j < i :: effects[j].id == id ==> effects[j].rows.None?
  }

  ghost predicate NoneFor(effects: seq<Effect>, id: nat) {
    forall j | 0 <= j < |effects| :: effects[j].id == id ==> effects[j].rows.None?
  }

  /** Whatever the duplicates, the order, the rollbacks and the changes to preferences: an event leaves rows exactly when
      one of its deliveries took effect, and the rows are those of the first that did. */
  lemma {:induction false} FirstDecides(effects: seq<Effect>, id: nat)
    ensures id in Run(effects) ==> exists i :: First(effects, i, id) && Run(effects)[id] == effects[i].rows.value
    ensures id !in Run(effects) ==> NoneFor(effects, id)
  {
    if |effects| > 0 {
      var n := |effects| - 1;
      var before := effects[..n];
      FirstDecides(before, id);
      if id in Run(before) {
        var i :| First(before, i, id) && Run(before)[id] == before[i].rows.value;
        assert First(effects, i, id);
      } else if id in Run(effects) {
        assert First(effects, n, id);
      } else {
        forall j | 0 <= j < |effects| ensures effects[j].id == id ==> effects[j].rows.None? {
          assert j < n ==> before[j] == effects[j];
        }
      }
    }
  }

  /** Each delivery carries the event its id names, under the same preferences. */
  ghost predicate Fixed(attempts: seq<Attempt>, outbox: map<nat, OutboxEvent>, users: Users) {
    forall a | a in attempts :: a.users == users && a.event.id in outbox && outbox[a.event.id] == a.event
  }

  ghost predicate Committed(attempts: seq<Attempt>, id: nat) {
    exists a | a in attempts :: a.committed && a.event.id == id
  }

  /** The rows of one event on their own. */
  function Alone(readers: Readers, outbox: map<nat, OutboxEvent>, users: Users, id: nat): Option<Projected> {
    if id !in outbox then None
    else
      match Projecting(readers, users, outbox[id])
      case Ok(rows) => rows
      case Err(_) => None
  }

  /** The closed form: with preferences fixed, the tables are those of projecting each committed event once. */
  lemma RunIsEachOnce(readers: Readers, attempts: seq<Attempt>, outbox: map<nat, OutboxEvent>, users: Users, id: nat)
    requires Fixed(attempts, outbox, users)
    ensures var view := Run(EffectsOf(readers, attempts)); var alone := Alone(readers, outbox, users, id);
            if Committed(attempts, id) && alone.Some? then id in view && view[id] == alone.value else id !in view
  {
    var effects := EffectsOf(readers, attempts);
    FirstDecides(effects, id);
    if id in Run(effects) {
      var i :| First(effects, i, id) && Run(effects)[id] == effects[i].rows.value;
      EffectIsAlone(readers, outbox, users, attempts[i]);
      assert attempts[i] in attempts;
    } else if Committed(attempts, id) {
      var a :| a in attempts && a.committed && a.event.id == id;
      var j :| 0 <= j < |attempts| && attempts[j] == a;
      EffectIsAlone(readers, outbox, users, a);
      assert effects[j] == EffectOf(readers, a);
    }
  }

  lemma EffectIsAlone(readers: Readers, outbox: map<nat, OutboxEvent>, users: Users, a: Attempt)
    requires a.users == users && a.event.id in outbox && outbox[a.event.id] == a.event
    ensures EffectOf(readers, a) ==
            Effect(a.event.id, if a.committed then Alone(readers, outbox, users, a.event.id) else None)
  {
  }

  /** Duplicates and order are invisible: two runs that committed the same events leave the same tables. */
  lemma OrderIsInvisible(
      readers: Readers, first: seq<Attempt>, second: seq<Attempt>, outbox: map<nat, OutboxEvent>, users: Users)
    requires Fixed(first, outbox, users) && Fixed(second, outbox, users)
    requires forall id :: Committed(first, id) <==> Committed(second, id)
    ensures Run(EffectsOf(readers, first)) == Run(EffectsOf(readers, second))
  {
    var one, two := Run(EffectsOf(readers, first)), Run(EffectsOf(readers, second));
    forall id ensures (id in one <==> id in two) && (id in one ==> one[id] == two[id]) {
      RunIsEachOnce(readers, first, outbox, users, id);
      RunIsEachOnce(readers, second, outbox, users, id);
    }
  }

  /** Security mail always, the others as the profile says, and without a profile yes. */
  predicate Preferred(profile: Option<Profile>, category: Category) {
    || category.Security?
    || profile.None?
    || (category.Event? && profile.value.notifyEvent)
    || (category.Community? && profile.value.notifyCommunity)
  }

  lemma ProjectedAsPreferred(readers: Readers, users: Users, event: OutboxEvent, p: Projected)
    requires Projecting(readers, users, event) == Ok(Some(p))
    ensures CategoryOf(event.eventType).Some? && p.notification.recipient in users && p.notification.eventId == event.id
    ensures p.email.Some? <==> Preferred(users[p.notification.recipient], CategoryOf(event.eventType).value)
  {
  }

  /** The types that are projected, sixteen in all, by category. */
  lemma ProjectedTypes(t: string)
    ensures CategoryOf(t) == Some(Security) <==>
              || t == "identity.email_verification_requested" || t == "identity.password_reset_requested"
              || t == "moderation.case_updated" || t == "moderation.action_taken"
    ensures CategoryOf(t) == Some(Event) <==>
              || t == "registration.confirmed" || t == "registration.cash_pending" || t == "registration.waitlisted"
              || t == "registration.cancelled" || t == "registration.expired"
              || t == "event.updated" || t == "event.cancelled" || t == "event.update_published"
    ensures CategoryOf(t) == Some(Community) <==>
              || t == "membership.requested" || t == "membership.approved" || t == "membership.rejected"
              || t == "membership.removed" || t == "club.announcement_published"
  {
  }

  /** What the rows of an event say.  The recipient is the one named by recipient_user_id, or by user_id only where the
      first key is absent; an e-mail carries the token of its event, and one of four locales as hinted, or else English. */
  ghost predicate Says(readers: Readers, event: OutboxEvent, p: Projected) {
    var note, payload := p.notification, event.payload;
    && note.eventId == event.id && note.typeKey == event.eventType && event.details == Some(note.details)
    && note.bodyKey == "notifications." + event.eventType + ".body"
    && (CategoryOf(event.eventType) == Some(Security) ==> note.titleKey == "notifications." + "security" + ".title")
    && (CategoryOf(event.eventType) == Some(Event) ==> note.titleKey == "notifications." + "event" + ".title")
    && (CategoryOf(event.eventType) == Some(Community) ==> note.titleKey == "notifications." + "community" + ".title")
    && (payload.recipientUserId.Absent? ==>
          payload.userId.Text? && readers.uuid(payload.userId.text) == Some(note.recipient))
    && (!payload.recipientUserId.Absent? ==>
          payload.recipientUserId.Text? && readers.uuid(payload.recipientUserId.text) == Some(note.recipient))
    && (p.email.Some? ==> IntentSays(readers, payload, p.email.value))
  }

  ghost predicate IntentSays(readers: Readers, payload: Payload, intent: Intent) {
    && (if payload.authTokenId.Text?
        then intent.authTokenId.Some? && intent.authTokenId == readers.castUuid(payload.authTokenId.text)
        else intent.authTokenId.None?)
    && (if payload.localeHint.Text? && payload.localeHint.text in ["ar", "en", "fr", "tr"]
        then intent.localeHint == payload.localeHint.text
        else intent.localeHint == "en")
  }

  lemma ProjectedSays(readers: Readers, users: Users, event: OutboxEvent, p: Projected)
    requires Projecting(readers, users, event) == Ok(Some(p))
    ensures Says(readers, event, p)
  {
    if p.email.Some? {
      IntentIs(readers, event.payload, p.email.value);
    }
  }

  lemma IntentIs(readers: Readers, payload: Payload, intent: Intent)
    requires IntentOf(readers, payload) == Ok(intent)
    ensures IntentSays(readers, payload, intent)
  {
  }

  /** An event is projected without an error exactly when its recipient can be read, its type is one of the projection's,
      its details can be read, and, where an e-mail is wanted, its token is no text or a readable one; it leaves nothing
      exactly when the recipient has gone. */
  lemma ProjectedIff(readers: Readers, users: Users, event: OutboxEvent, raw: Field, recipient: nat)
    requires raw == if event.payload.recipientUserId.Absent? then event.payload.userId else event.payload.recipientUserId
    ensures !raw.Text? <==> Projecting(readers, users, event) == Err(RecipientMissing)
    ensures raw.Text? && readers.uuid(raw.text) == Some(recipient) ==>
              var outcome, token := Projecting(readers, users, event), event.payload.authTokenId;
              && (outcome == Err(UnsupportedEvent) <==> CategoryOf(event.eventType).None?)
              && (outcome == Ok(None) <==>
                    CategoryOf(event.eventType).Some? && event.details.Some? && recipient !in users)
              && (outcome.Ok? <==>
                    && CategoryOf(event.eventType).Some? && event.details.Some?
                    && (recipient in users && Preferred(users[recipient], CategoryOf(event.eventType).value) && token.Text? ==>
                          readers.castUuid(token.text).Some?))
  {
  }

  /** After any run of deliveries, an event has an e-mail delivery exactly when its recipient's preference allowed it at
      the first delivery that took effect; later changes of preferences and redeliveries neither add nor remove one. */
  lemma EmailAsPreferred(readers: Readers, attempts: seq<Attempt>, id: nat)
    requires id in Run(EffectsOf(readers, attempts))
    ensures var effects := EffectsOf(readers, attempts); var p := Run(effects)[id];
            exists i :: First(effects, i, id) &&
              var a := attempts[i];
              && CategoryOf(a.event.eventType).Some? && p.notification.recipient in a.users
              && (p.email.Some? <==> Preferred(a.users[p.notification.recipient], CategoryOf(a.event.eventType).value))
  {
    var effects := EffectsOf(readers, attempts);
    FirstDecides(effects, id);
    var i :| First(effects, i, id) && Run(effects)[id] == effects[i].rows.value;
    var a := attempts[i];
    assert effects[i] == EffectOf(readers, a);
    EffectIsProjecting(readers, a);
    ProjectedAsPreferred(readers, a.users, a.event, effects[i].rows.value);
  }

  /** After any run of deliveries, the rows of an event say what its first delivery that took effect says. */
  lemma RowsSayTheEvent(readers: Readers, attempts: seq<Attempt>, id: nat)
    requires id in Run(EffectsOf(readers, attempts))
    ensures exists i :: First(EffectsOf(readers, attempts), i, id) && attempts[i].event.id == id &&
              Says(readers, attempts[i].event, Run(EffectsOf(readers, attempts))[id])
  {
    var effects := EffectsOf(readers, attempts);
    FirstDecides(effects, id);
    var i :| First(effects, i, id) && Run(effects)[id] == effects[i].rows.value;
    var a := attempts[i];
    assert effects[i] == EffectOf(readers, a);
    EffectIsProjecting(readers, a);
    ProjectedSays(readers, a.users, a.event, effects[i].rows.value);
  }

  lemma EffectIsProjecting(readers: Readers, a: Attempt)
    requires EffectOf(readers, a).rows.Some?
    ensures Projecting(readers, a.users, a.event) == Ok(EffectOf(readers, a).rows)
  {
  }
}
