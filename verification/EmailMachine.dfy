/** Any number of e-mail workers, interleaved one committed transaction at a time, as a state machine. */
module EmailMachine {
  import opened Prelude
  import opened EmailTables

  /** Configuration shared by all workers. */
  datatype Config = Config(quota: int, maxAttempts: int, lease: int)

  /** A claimed delivery; the token is the attempt count handed out by the claim. */
  datatype Item = Item(id: Id, token: nat)

  /** Where a worker stands with the first item of its queue. */
  datatype Stage =
    | Begin
    | Reserving
    | Deferring
    | Sending
    | Completing(providerId: string)
    | Failing(permanent: bool, code: string)

  /** One call of run_once.  It is over when its queue is empty; broken tells that an exception or a crash ended it. */
  datatype Run = Run(now: Time, queue: seq<Item>, stage: Stage, delivered: nat, broken: bool)

  /** The call came to its end, and its counter is what the caller got. */
  predicate Returned(run: Run) {
    run.queue == [] && !run.broken
  }

  /** A message the provider took, with the date the sending worker's clock showed. */
  datatype Message = Message(delivery: Id, recipient: User, date: int)

  datatype Outcome = WasDelivered | WasRetried | WasGivenUp | WasPostponed

  datatype Event =
    | Claimed(run: nat, id: Id, token: nat, reclaimed: bool)
    | Finished(run: nat, id: Id, token: nat, outcome: Outcome, acked: bool)

  /** The database, the provider, the workers, and the history of every change to a delivery row. */
  datatype State = State(
    rows: Rows,
    reservations: Reservations,
    providerIds: map<string, string>,
    messages: seq<Message>,
    runs: seq<Run>,
    history: seq<Event>)

  /** How the provider call, rendering included, ended. */
  datatype Reply =
    | Accepted(providerId: string)
    | AcceptedThenRaised(providerId: string, permanent: bool, code: string)
    | Refused(permanent: bool, code: string)

  datatype Action =
    | Enqueue(id: Id, row: Row)
    | Claim(now: Time, ids: seq<Id>, commit: Commit)
    | Check(run: nat, readOk: bool)
    | Reserve(run: nat, commit: Commit)
    | Defer(run: nat, commit: Commit)
    | Send(run: nat, reply: Reply)
    | Complete(run: nat, commit: Commit)
    | Fail(run: nat, commit: Commit)
    | Crash(run: nat)

  const INIT := State(map[], map[], map[], [], [], [])

  predicate Distinct<T(==)>(s: seq<T>) {
    forall i, j | 0 <= i < j < |s| :: s[i] != s[j]
  }

  predicate Busy(s: State, r: nat) {
    r < |s.runs| && s.runs[r].queue != [] && s.runs[r].queue[0].id in s.rows
  }

  predicate Enabled(cfg: Config, s: State, a: Action) {
    match a
    case Enqueue(id, row) => id !in s.rows && Fresh(row)
    case Claim(now, ids, _) =>
      Distinct(ids) && forall id | id in ids :: id in s.rows && Claimable(s.rows[id], now, cfg.lease)
    case Check(r, _) => Busy(s, r) && s.runs[r].stage.Begin?
    case Reserve(r, _) => Busy(s, r) && s.runs[r].stage.Reserving?
    case Defer(r, _) => Busy(s, r) && s.runs[r].stage.Deferring?
    case Send(r, reply) =>
      && Busy(s, r) && s.runs[r].stage.Sending?
      && (!Renderable(s.rows[s.runs[r].queue[0].id].mail) ==> reply.Refused? && reply.permanent)
    case Complete(r, _) => Busy(s, r) && s.runs[r].stage.Completing?
    case Fail(r, _) => Busy(s, r) && s.runs[r].stage.Failing?
    case Crash(r) => r < |s.runs| && s.runs[r].queue != []
  }

  function SetRun(s: State, r: nat, run: Run): State
    requires r < |s.runs|
  {
    s.(runs := s.runs[r := run])
  }

  function ToStage(s: State, r: nat, stage: Stage): State
    requires r < |s.runs|
  {
    SetRun(s, r, s.runs[r].(stage := stage))
  }

  /** On to the next item of the queue. */
  function Advance(run: Run, increment: nat): Run
    requires run.queue != []
  {
    run.(queue := run.queue[1..], stage := Begin, delivered := run.delivered + increment)
  }

  function Stopped(run: Run): Run {
    run.(queue := [], stage := Begin, broken := true)
  }

  /** The claim of a single candidate within the claim transaction. */
  function ClaimOne(s: State, r: nat, now: Time, id: Id): State
    requires id in s.rows
  {
    s.(rows := s.rows[id := ClaimedRow(s.rows[id], now)],
    history := s.history + [Claimed(r, id, s.rows[id].attempts + 1, s.rows[id].status.Processing?)])
  }

  function ClaimAll(s: State, r: nat, now: Time, ids: seq<Id>): (c: State)
    requires forall id | id in ids :: id in s.rows
    ensures c.rows.Keys == s.rows.Keys
    decreases |ids|
  {
    if ids == [] then s else ClaimAll(ClaimOne(s, r, now, ids[0]), r, now, ids[1..])
  }

  function Items(rows: Rows, ids: seq<Id>): seq<Item>
    requires forall id | id in ids :: id in rows
  {
    seq(|ids|, i requires 0 <= i < |ids| => Item(ids[i], rows[ids[i]].attempts))
  }

  /** The run a claim starts; without the acknowledgement it never sees its items. */
  function NewRun(now: Time, rows: Rows, ids: seq<Id>, acked: bool): Run
    requires forall id | id in ids :: id in rows
  {
    Run(now, if acked then Items(rows, ids) else [], Begin, 0, !acked)
  }

  function OutcomeOf(verdict: Verdict): Outcome {
    match verdict
    case Deliver(_) => WasDelivered
    case Retry(_) => WasRetried
    case GiveUp(_) => WasGivenUp
    case Postpone => WasPostponed
  }

  /** The guarded update that ends an item; the history records it only when it hits the row. */
  function Finish(s: State, r: nat, item: Item, verdict: Verdict, now: Time, acked: bool): State {
    if Holds(s.rows, item.id, item.token) then
      s.(rows := Settle(s.rows, item.id, item.token, verdict, now),
      history := s.history + [Finished(r, item.id, item.token, OutcomeOf(verdict), acked)])
    else s
  }

  /** A finishing transaction and the worker's next stage. */
  function FinishRun(s: State, r: nat, verdict: Verdict, commit: Commit, onError: Run): State
    requires Busy(s, r)
  {
    var run := s.runs[r];
    var item := run.queue[0];
    var hit := if verdict.Deliver? && Holds(s.rows, item.id, item.token) then 1 else 0;
    match commit
    case Acked => SetRun(Finish(s, r, item, verdict, run.now, true), r, Advance(run, hit))
    case AckLost => SetRun(Finish(s, r, item, verdict, run.now, false), r, onError)
    case Aborted => SetRun(s, r, onError)
  }

  const DATABASE_ERROR := Failing(false, "databaseerror")

  function FailVerdict(cfg: Config, permanent: bool, code: string, token: nat): Verdict {
    if permanent || token >= cfg.maxAttempts then GiveUp(code) else Retry(code)
  }

  /** Checking for an earlier reservation, before the advisory lock; security mail skips it. */
  function CheckStage(s: State, id: Id, readOk: bool): Stage
    requires id in s.rows
  {
    if IsSecurity(s.rows[id].mail) then Sending
    else if !readOk then DATABASE_ERROR
    else if id in s.reservations then Sending
    else Reserving
  }

  /** Counting and inserting under the recipient's advisory lock. */
  function ReserveStep(cfg: Config, s: State, r: nat, commit: Commit): State
    requires Busy(s, r)
  {
    var run := s.runs[r];
    var id := run.queue[0].id;
    var user := s.rows[id].mail.recipient;
    var slot := NextSlot(s.reservations, user, Date(run.now));
    if commit.Aborted? then ToStage(s, r, DATABASE_ERROR)
    else if slot > cfg.quota then ToStage(s, r, if commit.Acked? then Deferring else DATABASE_ERROR)
    else if id in s.reservations then ToStage(s, r, DATABASE_ERROR) // the primary key refuses the second insert
    else
      ToStage(s.(reservations := s.reservations[id := Reservation(user, Date(run.now), slot)]), r,
              if commit.Acked? then Sending else DATABASE_ERROR)
  }

  /** An idempotent provider: the first call under a key is logged, later ones repeat its answer. */
  function Accept(s: State, id: Id, providerId: string, now: Time): (t: State)
    requires id in s.rows
    ensures Key(id) in t.providerIds
  {
    if Key(id) in s.providerIds then s
    else s.(providerIds := s.providerIds[Key(id) := providerId],
            messages := s.messages + [Message(id, s.rows[id].mail.recipient, Date(now))])
  }

  function SendStep(s: State, r: nat, reply: Reply): State
    requires Busy(s, r)
  {
    var id, now := s.runs[r].queue[0].id, s.runs[r].now;
    match reply
    case Accepted(pid) =>
      var t := Accept(s, id, pid, now);
      ToStage(t, r, Completing(t.providerIds[Key(id)]))
    case AcceptedThenRaised(pid, permanent, code) => ToStage(Accept(s, id, pid, now), r, Failing(permanent, code))
    case Refused(permanent, code) => ToStage(s, r, Failing(permanent, code))
  }

  /** The actions that end an item with a guarded update. */
  predicate IsFinish(a: Action) {
    a.Defer? || a.Complete? || a.Fail?
  }

  /** Which update a finishing action performs. */
  function VerdictOf(cfg: Config, run: Run, a: Action): Verdict
    requires IsFinish(a) && run.queue != []
    requires (a.Complete? ==> run.stage.Completing?) && (a.Fail? ==> run.stage.Failing?)
  {
    match a
    case Defer(_, _) => Postpone
    case Complete(_, _) => Deliver(run.stage.providerId)
    case Fail(_, _) => FailVerdict(cfg, run.stage.permanent, run.stage.code, run.queue[0].token)
  }

  /** An exception while deferring or completing is caught and recorded as a failure; one while recording a failure
      leaves run_once, and the rest of its queue waits for the leases to expire. */
  function OnError(run: Run, a: Action): Run {
    if a.Fail? then Stopped(run) else run.(stage := DATABASE_ERROR)
  }

  /** One step; an action that is not enabled changes nothing. */
  function Apply(cfg: Config, s: State, a: Action): State {
    if !Enabled(cfg, s, a) then s
    else
      match a
      case Enqueue(id, row) => s.(rows := s.rows[id := row])
      case Claim(now, ids, commit) =>
        if commit.Aborted? then s
        else
          var c := ClaimAll(s, |s.runs|, now, ids);
          c.(runs := c.runs + [NewRun(now, c.rows, ids, commit.Acked?)])
      case Check(r, readOk) => ToStage(s, r, CheckStage(s, s.runs[r].queue[0].id, readOk))
      case Reserve(r, commit) => ReserveStep(cfg, s, r, commit)
      case Send(r, reply) => SendStep(s, r, reply)
      case Crash(r) => SetRun(s, r, Stopped(s.runs[r]))
      case _ => FinishRun(s, a.run, VerdictOf(cfg, s.runs[a.run], a), a.commit, OnError(s.runs[a.run], a))
  }

  /** From s to t nothing happened but that run r moved on, within its queue or out of it, and reservations or the
      provider's log may have grown. */
  ghost predicate OnlyRunMoves(s: State, t: State, r: nat)
    requires r < |s.runs|
  {
    && t.rows == s.rows && t.history == s.history && |t.runs| == |s.runs|
    && t.runs == s.runs[r := t.runs[r]] && t.runs[r].delivered == s.runs[r].delivered
    && t.runs[r].now == s.runs[r].now
    && ((t.runs[r].queue == s.runs[r].queue && t.runs[r].broken == s.runs[r].broken)
        || (t.runs[r].queue == [] && t.runs[r].broken))
  }

  lemma ReserveMoves(cfg: Config, s: State, r: nat, commit: Commit)
    requires Busy(s, r)
    ensures OnlyRunMoves(s, ReserveStep(cfg, s, r, commit), r)
  {
  }

  lemma SendMoves(s: State, r: nat, reply: Reply)
    requires Busy(s, r)
    ensures OnlyRunMoves(s, SendStep(s, r, reply), r)
  {
  }

  /** Checking, reserving, sending and crashing leave the rows, the history and the other workers alone. */
  lemma WorkerMoves(cfg: Config, s: State, a: Action)
    requires Enabled(cfg, s, a) && (a.Check? || a.Reserve? || a.Send? || a.Crash?)
    ensures OnlyRunMoves(s, Apply(cfg, s, a), a.run)
  {
    match a
    case Reserve(r, commit) => ReserveMoves(cfg, s, r, commit);
    case Send(r, reply) => SendMoves(s, r, reply);
    case _ =>
  }

  /** From s to t run r finished its item or failed to: its head's row may have changed, and nothing else but the run. */
  ghost predicate OnlyFinishes(s: State, t: State, r: nat, onError: Run)
    requires Busy(s, r)
  {
    var run, id := s.runs[r], s.runs[r].queue[0].id;
    && t.reservations == s.reservations && t.providerIds == s.providerIds && t.messages == s.messages
    && s.history <= t.history && |t.runs| == |s.runs| && t.runs == s.runs[r := t.runs[r]]
    && (t.runs[r] == onError || (t.runs[r].queue == run.queue[1..] && t.runs[r].stage.Begin? && t.runs[r].now == run.now))
    && t.rows.Keys == s.rows.Keys && t.rows[id].mail == s.rows[id].mail && t.rows[id].attempts == s.rows[id].attempts
    && (forall i | i in s.rows && i != id :: t.rows[i] == s.rows[i])
  }

  lemma FinishChangesHead(s: State, r: nat, item: Item, verdict: Verdict, now: Time, acked: bool)
    requires item.id in s.rows
    ensures var t := Finish(s, r, item, verdict, now, acked);
            && t == s.(rows := t.rows, history := t.history) && s.history <= t.history && t.rows.Keys == s.rows.Keys
            && t.rows[item.id].mail == s.rows[item.id].mail && t.rows[item.id].attempts == s.rows[item.id].attempts
            && (forall i | i in s.rows && i != item.id :: t.rows[i] == s.rows[i])
  {
  }

  lemma FinishMoves(s: State, r: nat, verdict: Verdict, commit: Commit, onError: Run)
    requires Busy(s, r)
    ensures OnlyFinishes(s, FinishRun(s, r, verdict, commit, onError), r, onError)
  {
    FinishChangesHead(s, r, s.runs[r].queue[0], verdict, s.runs[r].now, commit.Acked?);
  }

  /** A finish whose token is not held changes no row, no record and no counter, whatever its verdict. */
  lemma UnheldFinish(s: State, r: nat, verdict: Verdict, commit: Commit, onError: Run)
    requires Busy(s, r) && onError.delivered == s.runs[r].delivered
    requires !Holds(s.rows, s.runs[r].queue[0].id, s.runs[r].queue[0].token)
    ensures var t := FinishRun(s, r, verdict, commit, onError);
            && t.rows == s.rows && t.history == s.history && t.reservations == s.reservations
            && t.runs[r].delivered == s.runs[r].delivered
  {
  }

  /** The state after a whole interleaving. */
  function Exec(cfg: Config, s: State, actions: seq<Action>): State {
    if actions == [] then s
    else Apply(cfg, Exec(cfg, s, actions[..|actions| - 1]), actions[|actions| - 1])
  }
}
