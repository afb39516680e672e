/** The worker's own code: run_once and its transactions over shared tables that other workers keep changing. */
module EmailWorker {
  import opened Prelude
  import opened EmailTables
  import opened EmailMachine
  import opened EmailFencing

  /** The token is no longer held, and will not be held again. */
  predicate Released(rows: Rows, id: Id, token: nat) {
    id in rows && token <= rows[id].attempts && !Holds(rows, id, token)
  }

  lemma {:induction false} ClaimsKeepReleased(s: State, r: nat, now: Time, ids: seq<Id>, id: Id, token: nat)
    requires (forall i | i in ids :: i in s.rows) && Released(s.rows, id, token)
    ensures Released(ClaimAll(s, r, now, ids).rows, id, token)
    decreases |ids|
  {
    if ids != [] {
      ClaimsKeepReleased(ClaimOne(s, r, now, ids[0]), r, now, ids[1..], id, token);
    }
  }

  lemma StepKeepsReleased(cfg: Config, s: State, a: Action, id: Id, token: nat)
    requires Released(s.rows, id, token)
    ensures Released(Apply(cfg, s, a).rows, id, token)
  {
    if Enabled(cfg, s, a) {
      if a.Claim? {
        ClaimsKeepReleased(s, |s.runs|, a.now, a.ids, id, token);
      } else if !IsFinish(a) && !a.Enqueue? {
        WorkerMoves(cfg, s, a);
      }
    }
  }

  /** Once released, a token stays released however the interleaving goes on. */
  lemma {:induction false} ReleasedForGood(cfg: Config, earlier: seq<Action>, later: seq<Action>, id: Id, token: nat)
    requires earlier <= later && Released(Exec(cfg, INIT, earlier).rows, id, token)
    ensures Released(Exec(cfg, INIT, later).rows, id, token)
    decreases |later|
  {
    if |earlier| < |later| {
      var n := |later| - 1;
      ReleasedForGood(cfg, earlier, later[..n], id, token);
      StepKeepsReleased(cfg, Exec(cfg, INIT, later[..n]), later[n], id, token);
    } else {
      assert earlier == later;
    }
  }

  /** The items a run still holds exist, under tokens that their rows have reached. */
  lemma QueueIsKnown(cfg: Config, actions: seq<Action>, r: nat, item: Item)
    requires r < |Exec(cfg, INIT, actions).runs| && item in Exec(cfg, INIT, actions).runs[r].queue
    ensures var rows := Exec(cfg, INIT, actions).rows; item.id in rows && item.token <= rows[item.id].attempts
  {
    ReachableFenced(cfg, actions);
    var s := Exec(cfg, INIT, actions);
    assert OwnsQueue(s.runs[r], r, s.history) && Handed(s.history, r, item.id, item.token);
    forall e | e in s.history ensures Sound(e, s.rows, s.history) {
    }
  }

  /** Attempt counts never fall. */
  lemma {:induction false} TokenIsReached(cfg: Config, earlier: seq<Action>, later: seq<Action>, id: Id, token: nat)
    requires earlier <= later && id in Exec(cfg, INIT, earlier).rows && token <= Exec(cfg, INIT, earlier).rows[id].attempts
    ensures id in Exec(cfg, INIT, later).rows && token <= Exec(cfg, INIT, later).rows[id].attempts
    decreases |later|
  {
    if |earlier| < |later| {
      var n := |later| - 1;
      TokenIsReached(cfg, earlier, later[..n], id, token);
      StepKeepsAttempts(cfg, Exec(cfg, INIT, later[..n]), later[n], id);
    } else {
      assert earlier == later;
    }
  }

  lemma StepKeepsAttempts(cfg: Config, s: State, a: Action, id: Id)
    requires id in s.rows
    ensures id in Apply(cfg, s, a).rows && s.rows[id].attempts <= Apply(cfg, s, a).rows[id].attempts
  {
    if Enabled(cfg, s, a) {
      if a.Claim? {
        ClaimsKeepAttempts(s, |s.runs|, a.now, a.ids, id);
      } else if IsFinish(a) {
        FinishMoves(s, a.run, VerdictOf(cfg, s.runs[a.run], a), a.commit, OnError(s.runs[a.run], a));
      } else if !a.Enqueue? {
        WorkerMoves(cfg, s, a);
      }
    }
  }

  lemma {:induction false} ClaimsKeepAttempts(s: State, r: nat, now: Time, ids: seq<Id>, id: Id)
    requires (forall i | i in ids :: i in s.rows) && id in s.rows
    ensures s.rows[id].attempts <= ClaimAll(s, r, now, ids).rows[id].attempts
    decreases |ids|
  {
    if ids != [] {
      ClaimsKeepAttempts(ClaimOne(s, r, now, ids[0]), r, now, ids[1..], id);
    }
  }

  lemma AllReleasedForGood(cfg: Config, earlier: seq<Action>, later: seq<Action>, items: seq<Item>)
    requires earlier <= later && AllReleased(Exec(cfg, INIT, earlier).rows, items)
    ensures AllReleased(Exec(cfg, INIT, later).rows, items)
  {
    forall i | i in items ensures Released(Exec(cfg, INIT, later).rows, i.id, i.token) {
      ReleasedForGood(cfg, earlier, later, i.id, i.token);
    }
  }

  predicate AllReleased(rows: Rows, items: seq<Item>) {
    forall i | i in items :: Released(rows, i.id, i.token)
  }

  /** An action that is not a step of run r; claims and new deliveries belong to none of the existing runs. */
  predicate Foreign(a: Action, r: nat) {
    a.Enqueue? || a.Claim? || a.run != r
  }

  lemma ForeignLeavesRun(cfg: Config, s: State, a: Action, r: nat)
    requires Foreign(a, r) && r < |s.runs|
    ensures var t := Apply(cfg, s, a); r < |t.runs| && t.runs[r] == s.runs[r] && s.rows.Keys <= t.rows.Keys
  {
    if Enabled(cfg, s, a) {
      if a.Claim? {
        ClaimsLeaveRuns(s, |s.runs|, a.now, a.ids);
      } else if IsFinish(a) {
        FinishMoves(s, a.run, VerdictOf(cfg, s.runs[a.run], a), a.commit, OnError(s.runs[a.run], a));
      } else if !a.Enqueue? {
        WorkerMoves(cfg, s, a);
      }
    }
  }

  lemma {:induction false} ClaimsLeaveRuns(s: State, r: nat, now: Time, ids: seq<Id>)
    requires forall i | i in ids :: i in s.rows
    ensures ClaimAll(s, r, now, ids).runs == s.runs
    decreases |ids|
  {
    if ids != [] {
      ClaimsLeaveRuns(ClaimOne(s, r, now, ids[0]), r, now, ids[1..]);
    }
  }

  /** What a send comes to, reply by reply. */
  lemma SendStepIs(s: State, r: nat, reply: Reply)
    requires Busy(s, r)
    ensures var id, run := s.runs[r].queue[0].id, s.runs[r];
            match reply
            case Accepted(pid) =>
              var t := Accept(s, id, pid, run.now);
              SendStep(s, r, reply) == t.(runs := s.runs[r := run.(stage := Completing(t.providerIds[Key(id)]))])
            case AcceptedThenRaised(pid, permanent, code) =>
              var t := Accept(s, id, pid, run.now);
              SendStep(s, r, reply) == t.(runs := s.runs[r := run.(stage := Failing(permanent, code))])
            case Refused(permanent, code) =>
              SendStep(s, r, reply) == s.(runs := s.runs[r := run.(stage := Failing(permanent, code))])
  {
  }

  /** Everything the workers share: the tables, the provider's memory, and the record of who holds what. */
  class Mailroom {
    const cfg: Config
    var rows: Rows
    var reservations: Reservations
    var providerIds: map<string, string>
    var messages: seq<Message>
    var runs: seq<Run>
    var history: seq<Event>
    ghost var trace: seq<Action>

    ghost function Model(): State
      reads this
    {
      State(rows, reservations, providerIds, messages, runs, history)
    }

    /** What is stored is what some interleaving of the machine's steps produces. */
    ghost predicate Valid()
      reads this
    {
      Model() == Exec(cfg, INIT, trace)
    }

    constructor (cfg: Config)
      ensures Valid() && Model() == INIT && this.cfg == cfg
    {
      this.cfg := cfg;
      rows, reservations, providerIds, messages, runs, history := map[], map[], map[], [], [], [];
      trace := [];
    }

    /** Other workers, and the projection that adds deliveries, take any number of steps. */
    method Interference(r: nat)
      requires Valid() && r < |runs|
      modifies this
      ensures Valid() && old(trace) <= trace
      ensures r < |runs| && runs[r] == old(runs[r]) && old(rows.Keys) <= rows.Keys
    {
      var steps := Arbitrary<nat>();
      while steps > 0
        invariant Valid() && old(trace) <= trace
        invariant r < |runs| && runs[r] == old(runs[r]) && old(rows.Keys) <= rows.Keys
      {
        var a := Arbitrary<Action>();
        if Foreign(a, r) {
          ForeignLeavesRun(cfg, Model(), a, r);
          var t := Apply(cfg, State(rows, reservations, providerIds, messages, runs, history), a);
          rows, reservations, providerIds, messages := t.rows, t.reservations, t.providerIds, t.messages;
          runs, history := t.runs, t.history;
          Remember(a);
        }
        steps := steps - 1;
      }
    }

    /** Extends the ghost trace by the step that was just taken. */
    ghost method Remember(a: Action)
      requires Model() == Apply(cfg, Exec(cfg, INIT, trace), a)
      modifies this`trace
      ensures trace == old(trace) + [a] && Valid()
    {
      assert (trace + [a])[..|trace|] == trace;
      trace := trace + [a];
    }

    /** The stage of run r, which holds this item at the head of its queue and runs under this clock. */
    ghost predicate At(r: nat, item: Item, now: Time, stage: Stage)
      reads this
    {
      && Valid() && Busy(Model(), r)
      && runs[r].queue[0] == item && runs[r].now == now && runs[r].stage == stage
    }

    /** Moves the worker's own bookkeeping on; the tables were changed by the caller. */
    method Proceed(r: nat, run: Run)
      requires r < |runs|
      modifies this`runs
      ensures runs == old(runs)[r := run]
    {
      runs := runs[r := run];
    }

    /** SELECT slot ... WHERE delivery_id = :delivery_id, skipped for mail about the account's security, which is all mail of
        the identity and moderation services; None is a failed read. */
    method FindReservation(r: nat, item: Item, now: Time) returns (found: Option<bool>)
      requires At(r, item, now, Begin)
      modifies this
      ensures Valid() && trace == old(trace) + [Check(r, found.Some?)]
      ensures At(r, item, now, if found.None? then DATABASE_ERROR else if found.value then Sending else Reserving)
      ensures runs[r] == old(runs[r]).(stage := runs[r].stage)
      ensures var t := old(rows[item.id].mail.eventType);
              if "identity." <= t || "moderation." <= t then found == Some(true)
              else found.Some? ==> found.value == (item.id in old(reservations))
      ensures rows == old(rows) && reservations == old(reservations) && messages == old(messages) && history == old(history)
    {
      var readOk := Arbitrary<bool>();
      if IsSecurity(rows[item.id].mail) {
        found := Some(true);
      } else if !readOk {
        found := None;
      } else {
        found := Some(item.id in reservations);
      }
      Proceed(r, runs[r].(stage := if found.None? then DATABASE_ERROR else if found.value then Sending else Reserving));
      Remember(Check(r, found.Some?));
    }

    /** The count and the insert under the advisory lock: whether a slot was reserved, or None after an exception. */
    method ReserveSlot(r: nat, item: Item, now: Time) returns (reserved: Option<bool>, ghost commit: Commit)
      requires At(r, item, now, Reserving)
      modifies this
      ensures Valid() && trace == old(trace) + [Reserve(r, commit)]
      ensures At(r, item, now, if reserved.None? then DATABASE_ERROR else if reserved.value then Sending else Deferring)
      ensures runs[r] == old(runs[r]).(stage := runs[r].stage)
      ensures rows == old(rows) && messages == old(messages) && history == old(history)
      ensures var user, date := old(rows)[item.id].mail.recipient, Date(now);
              var slot := |Holders(old(reservations), user, date)| + 1;
              && (reserved == Some(true) <==> commit.Acked? && slot <= cfg.quota && item.id !in old(reservations))
              && (reserved == Some(false) <==> commit.Acked? && slot > cfg.quota)
              && reservations == if !commit.Aborted? && slot <= cfg.quota && item.id !in old(reservations)
                                 then old(reservations)[item.id := Reservation(user, date, slot)] else old(reservations)
    {
      var ended := Arbitrary<Commit>();
      commit := ended;
      ghost var before := Model();
      var user := rows[item.id].mail.recipient;
      var slot := |Holders(reservations, user, Date(now))| + 1;
      reserved := None;
      if !ended.Aborted? {
        if slot > cfg.quota {
          reserved := if ended.Acked? then Some(false) else None;
        } else if item.id !in reservations {
          reservations := reservations[item.id := Reservation(user, Date(now), slot)];
          reserved := if ended.Acked? then Some(true) else None;
        }
      }
      Proceed(r, runs[r].(stage :=
        if reserved.None? then DATABASE_ERROR else if reserved.value then Sending else Deferring));
      assert Model() == ReserveStep(cfg, before, r, commit);
      Remember(Reserve(r, commit));
    }

    /** The provider: an answer is remembered under the idempotency key, and only the first call logs a message. */
    method ProviderSend(id: Id, now: Time, proposed: string) returns (providerId: string)
      requires id in rows
      modifies this`providerIds, this`messages
      ensures Model() == Accept(old(Model()), id, proposed, now)
      ensures Key(id) in providerIds && providerIds[Key(id)] == providerId
    {
      if Key(id) !in providerIds {
        messages := messages + [Message(id, rows[id].mail.recipient, Date(now))];
        providerIds := providerIds[Key(id) := proposed];
      }
      providerId := providerIds[Key(id)];
    }

    /** Rendering and the provider call: the provider's id, or None with the exception as the run's stage. */
    method RenderAndSend(r: nat, item: Item, now: Time) returns (providerId: Option<string>, ghost reply: Reply)
      requires At(r, item, now, Sending)
      modifies this
      ensures Valid() && trace == old(trace) + [Send(r, reply)]
      ensures Busy(Model(), r) && runs[r] == old(runs[r]).(stage := runs[r].stage)
      ensures if providerId.Some? then runs[r].stage == Completing(providerId.value) else runs[r].stage.Failing?
    {
      ghost var before := Model();
      var answer := Render(rows[item.id].mail);
      reply := answer;
      SendIsEnabled(before, r, reply);
      providerId := CallProvider(r, item.id, now, answer);
      Remember(Send(r, reply));
    }

    /** Mail that cannot be rendered never gets to the provider; all other mail meets with any reply. */
    method Render(mail: Mail) returns (reply: Reply)
      ensures !Renderable(mail) ==> reply.Refused? && reply.permanent
    {
      reply := Arbitrary<Reply>();
      if !Renderable(mail) {
        reply := Refused(true, "valueerror");
      }
    }

    lemma SendIsEnabled(s: State, r: nat, reply: Reply)
      requires Busy(s, r) && s.runs[r].stage.Sending?
      requires !Renderable(s.rows[s.runs[r].queue[0].id].mail) ==> reply.Refused? && reply.permanent
      ensures Apply(cfg, s, Send(r, reply)) == SendStep(s, r, reply)
    {
    }

    /** One call of the provider, however it ends. */
    method CallProvider(r: nat, id: Id, now: Time, reply: Reply) returns (providerId: Option<string>)
      requires Busy(Model(), r) && runs[r].queue[0].id == id && runs[r].now == now
      modifies this`providerIds, this`messages, this`runs
      ensures Model() == SendStep(old(Model()), r, reply)
      ensures Busy(Model(), r) && runs[r] == old(runs[r]).(stage := runs[r].stage)
      ensures if providerId.Some? then runs[r].stage == Completing(providerId.value) else runs[r].stage.Failing?
    {
      SendStepIs(Model(), r, reply);
      match reply {
        case Accepted(proposed) =>
          var given := ProviderSend(id, now, proposed);
          Proceed(r, runs[r].(stage := Completing(given)));
          providerId := Some(given);
        case AcceptedThenRaised(proposed, permanent, code) =>
          var given := ProviderSend(id, now, proposed);
          Proceed(r, runs[r].(stage := Failing(permanent, code)));
          providerId := None;
        case Refused(permanent, code) =>
          Proceed(r, runs[r].(stage := Failing(permanent, code)));
          providerId := None;
      }
    }

    ghost predicate Advanced(r: nat, before: Run, increment: nat)
      reads this
    {
      r < |runs| && before.queue != [] && runs[r] == Advance(before, increment)
    }

    /** UPDATE ... WHERE id = :id AND status = 'processing' AND attempt_count = :attempt_count: whether it hit. */
    method UpdateHeld(r: nat, item: Item, updated: Row, outcome: Outcome, acked: bool, ghost verdict: Verdict, now: Time)
      returns (hit: bool)
      requires item.id in rows && outcome == OutcomeOf(verdict)
      requires updated == SettledRow(rows[item.id], verdict, item.token, now)
      modifies this`rows, this`history
      ensures Model() == Finish(old(Model()), r, item, verdict, now, acked)
      ensures hit == Holds(old(rows), item.id, item.token) && !Holds(rows, item.id, item.token)
      ensures rows == if hit then old(rows)[item.id := updated] else old(rows)
    {
      hit := rows[item.id].status.Processing? && rows[item.id].attempts == item.token;
      if hit {
        rows := rows[item.id := updated];
        history := history + [Finished(r, item.id, item.token, outcome, acked)];
      }
    }

    /** Marking the delivery delivered, and the worker's next stage. */
    method MarkDelivered(r: nat, item: Item, now: Time, providerId: string)
      returns (ended: Commit, changed: bool)
      requires At(r, item, now, Completing(providerId))
      modifies this
      ensures Valid() && trace == old(trace) + [Complete(r, ended)]
      ensures changed == (!ended.Aborted? && Holds(old(rows), item.id, item.token))
      ensures ended.Acked? ==> Advanced(r, old(runs[r]), if changed then 1 else 0) && !Holds(rows, item.id, item.token)
      ensures !ended.Acked? ==> At(r, item, now, DATABASE_ERROR) && runs[r] == old(runs[r]).(stage := DATABASE_ERROR)
      ensures rows == if changed then old(rows)[item.id := old(rows)[item.id].(
                                                  status := Delivered, providerId := Some(Prefix(providerId, 500)),
                                                  deliveredAt := Some(now), startedAt := None, lastError := None)]
                      else old(rows)
    {
      ended := Arbitrary();
      ghost var before := Model();
      changed := false;
      if !ended.Aborted? {
        var updated := rows[item.id].(
          status := Delivered, providerId := Some(Prefix(providerId, 500)), deliveredAt := Some(now),
          startedAt := None, lastError := None);
        changed := UpdateHeld(r, item, updated, WasDelivered, ended.Acked?, Deliver(providerId), now);
      }
      var run := runs[r];
      Proceed(r, if ended.Acked? then Advance(run, if changed then 1 else 0) else run.(stage := DATABASE_ERROR));
      assert Model() == FinishRun(before, r, Deliver(providerId), ended, run.(stage := DATABASE_ERROR));
      Remember(Complete(r, ended));
    }

    /** The update of _defer_quota: for a holder, the row waits for the next UTC midnight. */
    method DeferToMidnight(r: nat, item: Item, now: Time) returns (ended: Commit)
      requires At(r, item, now, Deferring)
      modifies this
      ensures Valid() && trace == old(trace) + [Defer(r, ended)]
      ensures ended.Acked? ==> Advanced(r, old(runs[r]), 0) && !Holds(rows, item.id, item.token)
      ensures !ended.Acked? ==> At(r, item, now, DATABASE_ERROR) && runs[r] == old(runs[r]).(stage := DATABASE_ERROR)
      ensures rows == if ended.Aborted? || !Holds(old(rows), item.id, item.token) then old(rows)
                      else old(rows)[item.id := old(rows)[item.id].(
                                       status := RetryableFailed, startedAt := None, lastError := Some("daily_recipient_quota"),
                                       nextAttemptAt := Some((now / 86_400_000_000 + 1) * 86_400_000_000))]
    {
      ended := Arbitrary();
      ghost var before := Model();
      if !ended.Aborted? {
        var updated := rows[item.id].(
          status := RetryableFailed, nextAttemptAt := Some(NextMidnight(now)),
          lastError := Some("daily_recipient_quota"), startedAt := None);
        var hit := UpdateHeld(r, item, updated, WasPostponed, ended.Acked?, Postpone, now);
      }
      var run := runs[r];
      Proceed(r, if ended.Acked? then Advance(run, 0) else run.(stage := DATABASE_ERROR));
      assert Model() == FinishRun(before, r, Postpone, ended, run.(stage := DATABASE_ERROR));
      Remember(Defer(r, ended));
    }

    /** The update of _fail: for a holder, the row is given up for good after a permanent failure or the last allowed
        attempt, and otherwise waits for 2^min(token, 8) minutes.  When it raises, run_once is left. */
    method RecordFailure(r: nat, item: Item, now: Time, permanent: bool, code: string) returns (ended: Commit)
      requires At(r, item, now, Failing(permanent, code))
      modifies this
      ensures Valid() && trace == old(trace) + [Fail(r, ended)]
      ensures ended.Acked? ==> Advanced(r, old(runs[r]), 0) && !Holds(rows, item.id, item.token)
      ensures !ended.Acked? ==> r < |runs| && runs[r] == Stopped(old(runs[r]))
      ensures rows == if ended.Aborted? || !Holds(old(rows), item.id, item.token) then old(rows)
                      else if permanent || item.token >= cfg.maxAttempts then
                        old(rows)[item.id := old(rows)[item.id].(
                                    status := PermanentFailed, startedAt := None, lastError := Some(Prefix(code, 120)),
                                    nextAttemptAt := None)]
                      else
                        old(rows)[item.id := old(rows)[item.id].(
                                    status := RetryableFailed, startedAt := None, lastError := Some(Prefix(code, 120)),
                                    nextAttemptAt := Some(now + 60_000_000 * Pow2(Min(item.token, 8))))]
    {
      ended := Arbitrary();
      ghost var before := Model();
      ghost var verdict := FailVerdict(cfg, permanent, code, item.token);
      if !ended.Aborted? {
        UpdateFailed(r, item, now, permanent || item.token >= cfg.maxAttempts, code, ended.Acked?);
      }
      var run := runs[r];
      Proceed(r, if ended.Acked? then Advance(run, 0) else Stopped(run));
      assert Model() == FinishRun(before, r, verdict, ended, Stopped(run));
      Remember(Fail(r, ended));
    }

    /** The statement of _fail: a holder's row becomes one given up for good, or one to be retried. */
    method UpdateFailed(r: nat, item: Item, now: Time, giveUp: bool, code: string, acked: bool)
      requires item.id in rows
      modifies this`rows, this`history
      ensures Model() == Finish(old(Model()), r, item, if giveUp then GiveUp(code) else Retry(code), now, acked)
      ensures !Holds(rows, item.id, item.token)
      ensures rows == if !Holds(old(rows), item.id, item.token) then old(rows)
                      else if giveUp then
                        old(rows)[item.id := old(rows)[item.id].(
                                    status := PermanentFailed, startedAt := None, lastError := Some(Prefix(code, 120)),
                                    nextAttemptAt := None)]
                      else
                        old(rows)[item.id := old(rows)[item.id].(
                                    status := RetryableFailed, startedAt := None, lastError := Some(Prefix(code, 120)),
                                    nextAttemptAt := Some(now + 60_000_000 * Pow2(Min(item.token, 8))))]
    {
      var updated := rows[item.id].(
        status := if giveUp then PermanentFailed else RetryableFailed,
        nextAttemptAt := if giveUp then None else Some(RetryAt(item.token, now)),
        lastError := Some(Prefix(code, 120)), startedAt := None);
      ghost var verdict := if giveUp then GiveUp(code) else Retry(code);
      var hit := UpdateHeld(r, item, updated, if giveUp then WasGivenUp else WasRetried, acked, verdict, now);
    }

    /** UPDATE ... FROM candidates: each selected row is marked as processing under its next token. */
    method MarkProcessing(r: nat, ids: seq<Id>, now: Time)
      requires forall id | id in ids :: id in rows
      modifies this`rows, this`history
      ensures Model() == ClaimAll(old(Model()), r, now, ids)
    {
      ghost var before := Model();
      for k := 0 to |ids|
        invariant Model() == ClaimAll(before, r, now, ids[..k])
        invariant rows.Keys == before.rows.Keys
      {
        var row := rows[ids[k]];
        ClaimAllSnoc(before, r, now, ids[..k], ids[k]);
        assert ids[..k + 1] == ids[..k] + [ids[k]];
        rows := rows[ids[k] := row.(
          status := Processing, attempts := row.attempts + 1, startedAt := Some(now), nextAttemptAt := None)];
        history := history + [Claimed(r, ids[k], row.attempts + 1, row.status.Processing?)];
      }
      assert ids[..|ids|] == ids;
    }

    /** The claim query: the oldest candidates, skipping the rows other transactions hold. */
    method ClaimBatch(now: Time, limit: nat, locked: set<Id>) returns (r: nat, ids: seq<Id>, ended: Commit)
      requires Valid()
      modifies this
      ensures Valid() && trace == old(trace) + [Claim(now, ids, ended)]
      ensures IsOldest(old(rows), old(Candidates(rows, now, cfg.lease, locked)), limit, ids)
      ensures |ids| <= limit && forall id | id in ids ::
                id in old(rows) && id !in locked && Claimable(old(rows)[id], now, cfg.lease)
      ensures forall i, j | 0 <= i < j < |ids| ::
                var a, b := old(rows)[ids[i]], old(rows)[ids[j]];
                a.createdAt < b.createdAt || (a.createdAt == b.createdAt && ids[i] < ids[j])
      ensures forall id, c |
                && id in old(rows) && id !in locked && Claimable(old(rows)[id], now, cfg.lease) && id !in ids && c in ids ::
                var a, b := old(rows)[c], old(rows)[id];
                a.createdAt < b.createdAt || (a.createdAt == b.createdAt && c < id)
      ensures |ids| < limit ==>
                forall id | id in old(rows) && id !in locked && Claimable(old(rows)[id], now, cfg.lease) :: id in ids
      ensures !ended.Aborted? ==> r == |old(runs)| && |runs| == r + 1
      ensures !ended.Aborted? ==> (forall id | id in ids :: id in rows) && runs[r] == NewRun(now, rows, ids, ended.Acked?)
      ensures !ended.Aborted? ==> forall id | id in ids :: rows[id] == old(rows)[id].(
                status := Processing, attempts := old(rows)[id].attempts + 1, startedAt := Some(now), nextAttemptAt := None)
    {
      ended := Arbitrary();
      ids := SelectOldest(rows, Candidates(rows, now, cfg.lease, locked), limit);
      ghost var before := Model();
      ReachableFenced(cfg, trace);
      ClaimAllOrdered(before, |runs|, now, ids);
      ClaimsLeaveRuns(before, |runs|, now, ids);
      r := |runs|;
      if !ended.Aborted? {
        MarkProcessing(r, ids, now);
        runs := runs + [Run(now, if ended.Acked? then Items(rows, ids) else [], Begin, 0, !ended.Acked?)];
      }
      Remember(Claim(now, ids, ended));
    }
  }

  lemma {:induction false} ClaimAllSnoc(s: State, r: nat, now: Time, ids: seq<Id>, id: Id)
    requires id in s.rows && forall i | i in ids :: i in s.rows
    ensures ClaimAll(s, r, now, ids + [id]) == ClaimOne(ClaimAll(s, r, now, ids), r, now, id)
    decreases |ids|
  {
    if ids == [] {
      assert ClaimAll(s, r, now, [id]) == ClaimAll(ClaimOne(s, r, now, id), r, now, []);
    } else {
      assert (ids + [id])[1..] == ids[1..] + [id];
      ClaimAllSnoc(ClaimOne(s, r, now, ids[0]), r, now, ids[1..], id);
    }
  }

  class EmailDeliveryWorker {
    const room: Mailroom

    constructor (room: Mailroom)
      ensures this.room == room
    {
      this.room := room;
    }

    /** _reserve_quota, skipped for security mail: None is an exception. */
    method ReserveQuota(r: nat, item: Item, now: Time) returns (reserved: Option<bool>)
      requires room.At(r, item, now, Begin)
      modifies room
      ensures room.Valid() && old(room.trace) <= room.trace
      ensures room.At(r, item, now,
                      if reserved.None? then DATABASE_ERROR else if reserved.value then Sending else Deferring)
      ensures room.runs[r] == old(room.runs[r]).(stage := room.runs[r].stage)
    {
      reserved := room.FindReservation(r, item, now);
      if reserved == Some(false) {
        room.Interference(r);
        ghost var commit;
        reserved, commit := room.ReserveSlot(r, item, now);
      }
    }

    /** Rendering, sending and marking as delivered. */
    method SendAndMark(r: nat, item: Item, now: Time) returns (done: bool, increment: nat)
      requires room.At(r, item, now, Sending)
      modifies room
      ensures room.Valid() && old(room.trace) <= room.trace
      ensures done ==> room.Advanced(r, old(room.runs[r]), increment) && !Holds(room.rows, item.id, item.token)
      ensures !done ==> Busy(room.Model(), r) && room.runs[r] == old(room.runs[r]).(stage := room.runs[r].stage)
      ensures increment <= 1 && (!done ==> increment == 0 && room.runs[r].stage.Failing?)
    {
      ghost var reply;
      var providerId;
      providerId, reply := room.RenderAndSend(r, item, now);
      done, increment := false, 0;
      if providerId.Some? {
        room.Interference(r);
        var ended, changed := room.MarkDelivered(r, item, now, providerId.value);
        done := ended.Acked?;
        increment := if done && changed then 1 else 0;
      }
    }

    /** The try block of run_once for one item: done, or the exception that the run now stands on. */
    method TryDeliver(r: nat, item: Item, now: Time) returns (done: bool, increment: nat)
      requires room.At(r, item, now, Begin)
      modifies room
      ensures room.Valid() && old(room.trace) <= room.trace
      ensures done ==> room.Advanced(r, old(room.runs[r]), increment) && !Holds(room.rows, item.id, item.token)
      ensures !done ==> Busy(room.Model(), r) && room.runs[r] == old(room.runs[r]).(stage := room.runs[r].stage)
      ensures increment <= 1 && (!done ==> increment == 0 && room.runs[r].stage.Failing?)
    {
      done, increment := false, 0;
      var reserved := ReserveQuota(r, item, now);
      room.Interference(r);
      if reserved == Some(false) {
        var ended := room.DeferToMidnight(r, item, now);
        done := ended.Acked?;
      } else if reserved == Some(true) {
        done, increment := SendAndMark(r, item, now);
      }
    }

    /** One pass of the loop of run_once: the delivered increment, and whether an exception left the loop. */
    method DeliverItem(r: nat, item: Item, now: Time) returns (increment: nat, raised: bool)
      requires room.Valid() && r < |room.runs| && room.runs[r].queue != [] && room.runs[r].queue[0] == item
      requires room.runs[r].now == now && room.runs[r].stage.Begin?
      modifies room
      ensures room.Valid() && old(room.trace) <= room.trace
      ensures !raised ==> room.Advanced(r, old(room.runs[r]), increment) && Released(room.rows, item.id, item.token)
      ensures increment <= 1 && (raised ==> increment == 0)
      ensures raised ==> r < |room.runs| && room.runs[r] == Stopped(old(room.runs[r]))
    {
      ghost var before := room.trace;
      QueueIsKnown(room.cfg, before, r, item);
      var done;
      done, increment := TryDeliver(r, item, now);
      raised := false;
      if !done {
        room.Interference(r);
        var stage := room.runs[r].stage;
        var ended := room.RecordFailure(r, item, now, stage.permanent, stage.code);
        raised := !ended.Acked?;
      }
      if !raised {
        TokenIsReached(room.cfg, before, room.trace, item.id, item.token);
      }
    }

    /** run_once: claim a batch, then take its items one by one while others keep working; None is an exception.  What
        it returns is the counter of a run that has returned, and then none of the tokens it was given is held. */
    method RunOnce(now: Time, limit: nat, locked: set<Id>)
      returns (result: Option<nat>, ghost r: nat, ghost ids: seq<Id>, ghost ended: Commit)
      requires room.Valid()
      modifies room
      ensures room.Valid() && old(room.trace) + [Claim(now, ids, ended)] <= room.trace
      ensures IsOldest(old(room.rows), old(Candidates(room.rows, now, room.cfg.lease, locked)), limit, ids)
      ensures r == |old(room.runs)| && (r < |room.runs| <== !ended.Aborted?)
      ensures result.Some? ==> ended.Acked? && Returned(room.runs[r]) && room.runs[r].delivered == result.value <= |ids|
      ensures result.Some? ==> forall id | id in ids :: Released(room.rows, id, old(room.rows)[id].attempts + 1)
      ensures result.None? && !ended.Aborted? ==> room.runs[r].broken
    {
      var run, claimed, commit := room.ClaimBatch(now, limit, locked);
      r, ids, ended := |old(room.runs)|, claimed, commit;
      if !commit.Acked? {
        return None, r, ids, ended;
      }
      var items := room.runs[run].queue;
      ghost var given := old(room.rows);
      assert forall k | 0 <= k < |ids| :: items[k] == Item(ids[k], given[ids[k]].attempts + 1);
      result := DeliverAll(run, items, now);
      if result.Some? {
        AllReleasedById(room.rows, items, ids, given);
      }
    }

    /** The loop of run_once. */
    method DeliverAll(run: nat, items: seq<Item>, now: Time) returns (result: Option<nat>)
      requires room.Valid() && run < |room.runs| && room.runs[run] == Run(now, items, Begin, 0, false)
      modifies room
      ensures room.Valid() && old(room.trace) <= room.trace && run < |room.runs|
      ensures result.Some? ==> Returned(room.runs[run]) && room.runs[run].delivered == result.value <= |items|
      ensures result.Some? ==> AllReleased(room.rows, items)
      ensures result.None? ==> room.runs[run].broken
    {
      var delivered := 0;
      for k := 0 to |items|
        invariant room.Valid() && old(room.trace) <= room.trace
        invariant run < |room.runs| && 0 <= delivered <= k
        invariant room.runs[run] == Run(now, items[k..], Begin, delivered, false)
        invariant AllReleased(room.rows, items[..k])
      {
        ghost var before := room.trace;
        room.Interference(run);
        var increment, raised := DeliverItem(run, items[k], now);
        delivered := delivered + increment;
        if raised {
          return None;
        }
        AllReleasedForGood(room.cfg, before, room.trace, items[..k]);
        assert items[..k + 1] == items[..k] + [items[k]];
      }
      assert items[..|items|] == items;
      return Some(delivered);
    }
  }

  lemma AllReleasedById(rows: Rows, items: seq<Item>, ids: seq<Id>, before: Rows)
    requires |items| == |ids| && AllReleased(rows, items) && forall id | id in ids :: id in before
    requires forall k | 0 <= k < |ids| :: items[k] == Item(ids[k], before[ids[k]].attempts + 1)
    ensures forall id | id in ids :: Released(rows, id, before[id].attempts + 1)
  {
    forall id | id in ids ensures Released(rows, id, before[id].attempts + 1) {
      var k :| 0 <= k < |ids| && ids[k] == id;
      assert items[k] in items;
    }
  }

  // ----- the order of claiming

  predicate Before(rows: Rows, a: Id, b: Id) {
    && a in rows && b in rows
    && (rows[a].createdAt < rows[b].createdAt || (rows[a].createdAt == rows[b].createdAt && a < b))
  }

  predicate OldestFirst(rows: Rows, ids: seq<Id>) {
    forall i, j | 0 <= i < j < |ids| :: Before(rows, ids[i], ids[j])
  }

  function Candidates(rows: Rows, now: Time, lease: int, locked: set<Id>): set<Id> {
    set id | id in rows && id !in locked && Claimable(rows[id], now, lease)
  }

  /** The first `limit` candidates in the order of the query, or all of them. */
  predicate IsOldest(rows: Rows, candidates: set<Id>, limit: nat, ids: seq<Id>) {
    && OldestFirst(rows, ids) && |ids| <= limit && (forall id | id in ids :: id in candidates)
    && forall id | id in candidates && id !in ids ::
      |ids| == limit && forall c | c in ids :: Before(rows, c, id)
  }

  method SelectOldest(rows: Rows, candidates: set<Id>, limit: nat) returns (ids: seq<Id>)
    requires forall id | id in candidates :: id in rows
    ensures IsOldest(rows, candidates, limit, ids) && Distinct(ids)
  {
    ids := [];
    var left := candidates;
    while |ids| < limit && left != {}
      invariant |ids| <= limit && left <= candidates && OldestFirst(rows, ids)
      invariant forall id :: id in candidates <==> id in left || id in ids
      invariant forall c, id | c in ids && id in left :: Before(rows, c, id)
      decreases limit - |ids|
    {
      var id := Earliest(rows, left);
      ids := ids + [id];
      left := left - {id};
    }
  }

  function Earliest(rows: Rows, ids: set<Id>): (e: Id)
    requires ids != {} && forall id | id in ids :: id in rows
    ensures e in ids && forall id | id in ids && id != e :: Before(rows, e, id)
  {
    EarliestExists(rows, ids);
    var e :| e in ids && forall id | id in ids && id != e :: Before(rows, e, id);
    e
  }

  lemma {:induction false} EarliestExists(rows: Rows, ids: set<Id>)
    requires ids != {} && forall id | id in ids :: id in rows
    ensures exists e :: e in ids && forall id | id in ids && id != e :: Before(rows, e, id)
    decreases |ids|
  {
    var x := SomeElement(ids);
    var rest := ids - {x};
    if rest == {} {
      assert ids == {x};
    } else {
      EarliestExists(rows, rest);
      var y :| y in rest && forall id | id in rest && id != y :: Before(rows, y, id);
      assert forall id | id in ids :: id == x || id in rest;
      if Before(rows, x, y) {
        assert x in ids && forall id | id in ids && id != x :: Before(rows, x, id);
      } else {
        assert y in ids && forall id | id in ids && id != y :: Before(rows, y, id);
      }
    }
  }
}
