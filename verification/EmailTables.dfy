/** The two tables behind e-mail delivery, and each SQL statement of the worker as a function on them. */
module EmailTables {
  import opened Prelude

  type Id = nat
  type User = nat
  /** Microseconds since the epoch, UTC. */
  type Time = int

  const DAY: int := 86_400_000_000
  const MINUTE: int := 60_000_000

  function Date(t: Time): int {
    t / DAY
  }

  datatype Status = Pending | Processing | Delivered | RetryableFailed | PermanentFailed

  /** What a delivery reads of its notification and intent; none of it changes. */
  datatype Mail = Mail(recipient: User, eventType: string, fromWaitlist: bool, hasAuthToken: bool)

  /** An e-mail row of notification_deliveries. */
  datatype Row = Row(
    mail: Mail,
    createdAt: Time,
    status: Status,
    attempts: nat,
    nextAttemptAt: Option<Time>,
    startedAt: Option<Time>,
    providerId: Option<string>,
    deliveredAt: Option<Time>,
    lastError: Option<string>)

  datatype Reservation = Reservation(user: User, date: int, slot: nat)

  type Rows = map<Id, Row>
  type Reservations = map<Id, Reservation>

  predicate HasPrefix(s: string, prefix: string) {
    prefix <= s
  }

  predicate HasSuffix(s: string, suffix: string) {
    |suffix| <= |s| && s[|s| - |suffix|..] == suffix
  }

  predicate IsSecurity(mail: Mail) {
    HasPrefix(mail.eventType, "identity.") || HasPrefix(mail.eventType, "moderation.")
  }

  predicate IsRecovery(mail: Mail) {
    || mail.eventType == "identity.email_verification_requested"
    || mail.eventType == "identity.password_reset_requested"
  }

  /** The template a mail is rendered with; None is the ValueError of an unsupported type. */
  function TemplateFor(mail: Mail): Option<string> {
    var t := mail.eventType;
    if t == "identity.email_verification_requested" then Some("email_verification")
    else if t == "identity.password_reset_requested" then Some("password_reset")
    else if IsSecurity(mail) then Some("security")
    else if HasPrefix(t, "membership.") || HasPrefix(t, "club.") then Some("membership")
    else if t == "registration.expired" then Some("cash_expiry")
    else if (t == "registration.confirmed" || t == "registration.cash_pending") && mail.fromWaitlist
    then Some("promotion")
    else if HasSuffix(t, "cancelled") then Some("cancellation")
    else if HasPrefix(t, "event.") then Some("event_change")
    else if HasPrefix(t, "registration.") then Some("registration")
    else None
  }

  /** The message can be built: the recovery token is there when needed and a template exists. */
  predicate Renderable(mail: Mail) {
    (IsRecovery(mail) ==> mail.hasAuthToken) && TemplateFor(mail).Some?
  }

  predicate Claimable(row: Row, now: Time, lease: int) {
    || ((row.status.Pending? || row.status.RetryableFailed?)
        && (row.nextAttemptAt.None? || row.nextAttemptAt.value <= now))
    || (row.status.Processing? && row.startedAt.Some? && row.startedAt.value <= now - lease)
  }

  function ClaimedRow(row: Row, now: Time): Row {
    row.(status := Processing, attempts := row.attempts + 1, startedAt := Some(now), nextAttemptAt := None)
  }

  /** The guard of all three finishing updates: the token is still the row's attempt count. */
  predicate Holds(rows: Rows, id: Id, token: nat) {
    id in rows && rows[id].status.Processing? && rows[id].attempts == token
  }

  datatype Verdict =
    | Deliver(providerId: string)
    | Retry(code: string)
    | GiveUp(code: string)
    | Postpone

  function Prefix(s: string, n: nat): (p: string)
    ensures p <= s && |p| == Min(|s|, n)
  {
    if |s| <= n then s else s[..n]
  }

  function NextMidnight(now: Time): Time {
    (Date(now) + 1) * DAY
  }

  function RetryAt(token: nat, now: Time): Time {
    now + MINUTE * Pow2(Min(token, 8))
  }

  function SettledRow(row: Row, verdict: Verdict, token: nat, now: Time): Row {
    match verdict
    case Deliver(pid) =>
      row.(status := Delivered, providerId := Some(Prefix(pid, 500)), deliveredAt := Some(now),
      startedAt := None, lastError := None)
    case Retry(code) =>
      row.(status := RetryableFailed, nextAttemptAt := Some(RetryAt(token, now)),
      lastError := Some(Prefix(code, 120)), startedAt := None)
    case GiveUp(code) =>
      row.(status := PermanentFailed, nextAttemptAt := None,
      lastError := Some(Prefix(code, 120)), startedAt := None)
    case Postpone =>
      row.(status := RetryableFailed, nextAttemptAt := Some(NextMidnight(now)),
      lastError := Some("daily_recipient_quota"), startedAt := None)
  }

  /** UPDATE ... WHERE id = :id AND status = 'processing' AND attempt_count = :attempt_count */
  function Settle(rows: Rows, id: Id, token: nat, verdict: Verdict, now: Time): Rows {
    if Holds(rows, id, token) then rows[id := SettledRow(rows[id], verdict, token, now)] else rows
  }

  /** The reservations counted against one recipient and one date. */
  function Holders(reservations: Reservations, user: User, date: int): set<Id> {
    set id | id in reservations && reservations[id].user == user && reservations[id].date == date
  }

  function Slots(reservations: Reservations, user: User, date: int): set<nat> {
    set id | id in Holders(reservations, user, date) :: reservations[id].slot
  }

  function NextSlot(reservations: Reservations, user: User, date: int): nat {
    |Holders(reservations, user, date)| + 1
  }

  predicate Fresh(row: Row) {
    && row.status.Pending? && row.attempts == 0
    && row.nextAttemptAt.None? && row.startedAt.None? && row.providerId.None?
    && row.deliveredAt.None? && row.lastError.None?
  }

  /** The idempotency key of a delivery. */
  function Key(id: Id): string {
    "notification-email:" + Decimal(id)
  }

  lemma KeyInjective(a: Id, b: Id)
    requires Key(a) == Key(b)
    ensures a == b
    ensures "notification-email:" <= Key(a)
  {
    var prefix := "notification-email:";
    assert Key(a)[|prefix|..] == Decimal(a) && Key(b)[|prefix|..] == Decimal(b);
    DecimalInjective(a, b);
  }
}
