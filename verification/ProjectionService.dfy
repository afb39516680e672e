/** The three tables behind a projection, and the handler that fills them in one transaction. */
module ProjectionService {
  import opened Prelude
  import opened Projection

  datatype Channel = InApp | Email

  datatype DeliveryStatus = Pending | Delivered

  /** A delivery is known by its notification and channel, which are unique together. */
  type DeliveryKey = (nat, Channel)

  /** The rows, and where that of an event is. */
  datatype Tables = Tables(
    notifications: map<nat, Notification>, deliveries: map<DeliveryKey, DeliveryStatus>, intents: map<DeliveryKey, Intent>,
    nextId: nat, notificationOf: map<nat, nat>)

  // ----- when the tables hang together

  ghost predicate NotesIndexed(notifications: map<nat, Notification>, notificationOf: map<nat, nat>) {
    && (forall n | n in notifications ::
          notifications[n].eventId in notificationOf && notificationOf[notifications[n].eventId] == n)
    && (forall e | e in notificationOf ::
          notificationOf[e] in notifications && notifications[notificationOf[e]].eventId == e)
  }

  /** To each notification an in-app delivery, delivered; no delivery without its notification. */
  ghost predicate DeliveriesMatch(notes: set<nat>, deliveries: map<DeliveryKey, DeliveryStatus>) {
    && (forall n | n in notes :: (n, InApp) in deliveries && deliveries[(n, InApp)] == Delivered)
    && (forall k | k in deliveries :: k.0 in notes)
  }

  /** To each e-mail delivery, which waits to be sent, exactly one intent. */
  ghost predicate IntentsMatch(deliveries: map<DeliveryKey, DeliveryStatus>, intents: map<DeliveryKey, Intent>) {
    && (forall k :: k in intents <==> k in deliveries && k.1.Email?)
    && (forall k | k in intents :: deliveries[k] == Pending)
  }

  ghost predicate Below(notes: set<nat>, next: nat) {
    forall id | id in notes :: id < next
  }

  ghost predicate Consistent(t: Tables) {
    && NotesIndexed(t.notifications, t.notificationOf)
    && DeliveriesMatch(t.notifications.Keys, t.deliveries)
    && IntentsMatch(t.deliveries, t.intents)
    && Below(t.notifications.Keys, t.nextId)
  }

  /** The tables by event, without generated ids and times. */
  ghost function ViewOf(t: Tables): View
    requires Consistent(t)
  {
    Shown(t.notifications, t.intents, t.notificationOf)
  }

  ghost function Shown(notifications: map<nat, Notification>, intents: map<DeliveryKey, Intent>, notificationOf: map<nat, nat>): View
    requires forall e | e in notificationOf :: notificationOf[e] in notifications
  {
    map e | e in notificationOf :: Seen(notifications, intents, notificationOf[e])
  }

  ghost function Seen(notifications: map<nat, Notification>, intents: map<DeliveryKey, Intent>, n: nat): Projected
    requires n in notifications
  {
    Projected(notifications[n], if (n, Email) in intents then Some(intents[(n, Email)]) else None)
  }

  /** INSERT INTO notifications, with the in-app delivery. */
  function WithNote(t: Tables, note: Notification): Tables {
    t.(notifications := t.notifications[t.nextId := note], notificationOf := t.notificationOf[note.eventId := t.nextId],
       deliveries := t.deliveries[(t.nextId, InApp) := Delivered], nextId := t.nextId + 1)
  }

  /** INSERT INTO notification_deliveries and email_delivery_intents. */
  function WithEmail(t: Tables, n: nat, intent: Intent): Tables {
    t.(deliveries := t.deliveries[(n, Email) := Pending], intents := t.intents[(n, Email) := intent])
  }

  lemma NoteKeepsNotes(notifications: map<nat, Notification>, notificationOf: map<nat, nat>, n: nat, note: Notification)
    requires NotesIndexed(notifications, notificationOf) && n !in notifications && note.eventId !in notificationOf
    ensures NotesIndexed(notifications[n := note], notificationOf[note.eventId := n])
  {
  }

  lemma NoteKeepsDeliveries(notes: set<nat>, deliveries: map<DeliveryKey, DeliveryStatus>, n: nat)
    requires DeliveriesMatch(notes, deliveries) && n !in notes
    ensures DeliveriesMatch(notes + {n}, deliveries[(n, InApp) := Delivered])
    ensures (n, Email) !in deliveries
  {
  }

  lemma NoteConsistent(t: Tables, note: Notification)
    requires Consistent(t) && note.eventId !in t.notificationOf
    ensures Consistent(WithNote(t, note))
    ensures (t.nextId, Email) !in t.intents
    ensures forall e | e in t.notificationOf :: t.notificationOf[e] in t.notifications && t.notificationOf[e] != t.nextId
  {
    NoteKeepsNotes(t.notifications, t.notificationOf, t.nextId, note);
    NoteKeepsDeliveries(t.notifications.Keys, t.deliveries, t.nextId);
    assert WithNote(t, note).notifications.Keys == t.notifications.Keys + {t.nextId};
  }

  lemma NoteShows(
      notifications: map<nat, Notification>, intents: map<DeliveryKey, Intent>, notificationOf: map<nat, nat>,
      n: nat, note: Notification)
    requires forall e | e in notificationOf :: notificationOf[e] in notifications && notificationOf[e] != n
    requires (n, Email) !in intents
    ensures Shown(notifications[n := note], intents, notificationOf[note.eventId := n])
            == Shown(notifications, intents, notificationOf)[note.eventId := Projected(note, None)]
  {
  }

  lemma EmailConsistent(t: Tables, n: nat, intent: Intent)
    requires Consistent(t) && n in t.notifications
    ensures Consistent(WithEmail(t, n, intent))
  {
  }

  lemma EmailShows(
      notifications: map<nat, Notification>, intents: map<DeliveryKey, Intent>, notificationOf: map<nat, nat>,
      n: nat, intent: Intent)
    requires NotesIndexed(notifications, notificationOf) && n in notifications
    ensures Shown(notifications, intents[(n, Email) := intent], notificationOf)
            == Shown(notifications, intents, notificationOf)[notifications[n].eventId := Projected(notifications[n], Some(intent))]
  {
  }

  lemma NewEvent(t: Tables, note: Notification)
    requires Consistent(t)
    ensures note.eventId in t.notificationOf <==> exists n | n in t.notifications :: t.notifications[n].eventId == note.eventId
  {
    if note.eventId in t.notificationOf {
      assert t.notificationOf[note.eventId] in t.notifications;
    }
  }

  function ProjectResult(
      readers: Readers, payload: Payload, category: Category, note: Notification, users: Users, before: View)
    : Result<bool, Failure>
  {
    if note.recipient !in users || note.eventId in before then Ok(false)
    else if !Wants(users[note.recipient], category) then Ok(true)
    else match IntentOf(readers, payload) case Ok(_) => Ok(true) case Err(e) => Err(e)
  }

  lemma SetTwice(view: View, id: nat, first: Projected, second: Projected)
    ensures view[id := first][id := second] == view[id := second]
  {
  }

  class NotificationTables {
    var users: Users
    var t: Tables

    constructor (users: Users)
      ensures Valid() && View() == map[] && this.users == users
    {
      this.users := users;
      t := Tables(map[], map[], map[], 0, map[]);
    }

    ghost predicate Valid()
      reads this
    {
      Consistent(t)
    }

    ghost function View(): View
      reads this
      requires Valid()
    {
      ViewOf(t)
    }

    /** The notification, unless its event has one, and its in-app delivery. */
    method InsertNotification(note: Notification) returns (id: Option<nat>)
      requires Valid()
      modifies `t
      ensures Valid()
      ensures id.None? <==> note.eventId in old(View())
      ensures id.None? ==> View() == old(View())
      ensures id.Some? ==>
                && View() == old(View())[note.eventId := Projected(note, None)]
                && id.value in t.notifications && t.notifications[id.value] == note
                && (id.value, Email) !in t.deliveries
    {
      NewEvent(t, note);
      // ON CONFLICT (outbox_event_id) DO NOTHING
      if exists n | n in t.notifications :: t.notifications[n].eventId == note.eventId {
        id := None;
      } else {
        NoteConsistent(t, note);
        NoteShows(t.notifications, t.intents, t.notificationOf, t.nextId, note);
        id := Some(t.nextId);
        t := WithNote(t, note);
      }
    }

    /** The e-mail delivery and then its intent.  On an error the delivery is for the caller to roll back. */
    method InsertEmail(readers: Readers, payload: Payload, id: nat) returns (failure: Option<Failure>)
      requires Valid() && id in t.notifications && (id, Email) !in t.deliveries
      modifies `t
      ensures failure == match IntentOf(readers, payload) case Ok(_) => None case Err(e) => Some(e)
      ensures failure.None? ==>
                && Valid()
                && View() == old(View())[old(t).notifications[id].eventId :=
                               Projected(old(t).notifications[id], Some(IntentOf(readers, payload).value))]
    {
      ghost var before := t;
      t := t.(deliveries := t.deliveries[(id, Email) := Pending]);
      match IntentOf(readers, payload) {
        case Err(e) => return Some(e);
        case Ok(intent) =>
          t := t.(intents := t.intents[(id, Email) := intent]);
          EmailConsistent(before, id, intent);
          EmailShows(before.notifications, before.intents, before.notificationOf, id, intent);
      }
      return None;
    }

    /** True when this call made the rows.  On an error the rows made so far are for the caller to roll back. */
    method Project(readers: Readers, payload: Payload, category: Category, note: Notification)
      returns (made: Result<bool, Failure>)
      requires Valid()
      modifies `t
      ensures made == ProjectResult(readers, payload, category, note, users, old(View()))
      ensures made.Ok? ==> Valid()
      ensures made == Ok(false) ==> View() == old(View())
      ensures made == Ok(true) ==>
                View() == old(View())[note.eventId := Projected(note,
                            if Wants(users[note.recipient], category) then Some(IntentOf(readers, payload).value) else None)]
    {
      if note.recipient !in users {
        return Ok(false);
      }
      ghost var before := View();
      var wanted := Wants(users[note.recipient], category);
      var id := InsertNotification(note);
      if id.None? {
        return Ok(false);
      }
      if wanted {
        var failure := InsertEmail(readers, payload, id.value);
        if failure.Some? {
          return Err(failure.value);
        }
        SetTwice(before, note.eventId, Projected(note, None), Projected(note, Some(IntentOf(readers, payload).value)));
      }
      return Ok(true);
    }

    /** deliver: the checks on the event, then one transaction.  An exception, or a commit that fails, leaves nothing. */
    method DeliverEvent(readers: Readers, event: OutboxEvent, commits: bool) returns (raised: Option<Failure>)
      requires Valid()
      modifies `t
      ensures Valid()
      ensures View() == Projection.Deliver(old(View()), EffectOf(readers, Attempt(event, users, commits)))
      ensures raised.Some? ==> View() == old(View())
      ensures event.id !in old(View()) ==> (raised.None? <==> Projecting(readers, users, event).Ok?)
    {
      var recipient := RecipientOf(readers, event.payload);
      if recipient.Err? {
        return Some(recipient.error);
      }
      var category := CategoryOf(event.eventType);
      if category.None? {
        return Some(UnsupportedEvent);
      }
      if event.details.None? {
        return Some(MalformedId);
      }
      var note := NoteFor(event, recipient.value, category.value);
      var before := t;
      var made := Project(readers, event.payload, category.value, note);
      if made.Err? || !commits {
        t := before;
      }
      raised := if made.Err? then Some(made.error) else None;
    }
  }
}
