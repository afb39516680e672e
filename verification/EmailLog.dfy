/** The provider's log: what may be sent, and what a delivered row proves. */
module EmailLog {
  import opened Prelude
  import opened EmailTables
  import opened EmailMachine
  import opened EmailQuota

  type Messages = seq<Message>
  type ProviderIds = map<string, string>

  /** The quota lets this delivery through: it is exempt or holds a reservation. */
  predicate Cleared(id: Id, rows: Rows, res: Reservations) {
    id in rows && (IsSecurity(rows[id].mail) || id in res)
  }

  /** A logged message is for a delivery that may be sent. */
  predicate Logged(m: Message, rows: Rows, res: Reservations, ids: ProviderIds) {
    && Cleared(m.delivery, rows, res) && Renderable(rows[m.delivery].mail)
    && m.recipient == rows[m.delivery].mail.recipient
    && Key(m.delivery) in ids
  }

  predicate SentOnce(messages: Messages) {
    forall i, j | 0 <= i < j < |messages| :: messages[i].delivery != messages[j].delivery
  }

  predicate KeysLogged(messages: Messages, ids: ProviderIds) {
    forall k | k in ids :: exists m | m in messages :: Key(m.delivery) == k
  }

  predicate Log(rows: Rows, res: Reservations, messages: Messages, ids: ProviderIds) {
    && (forall m | m in messages :: Logged(m, rows, res, ids))
    && SentOnce(messages) && KeysLogged(messages, ids)
  }

  /** The message is in the log and this is the provider's answer for it. */
  predicate Answered(id: Id, user: User, providerId: string, messages: Messages, ids: ProviderIds) {
    && (exists m | m in messages :: m.delivery == id && m.recipient == user)
    && Key(id) in ids && ids[Key(id)] == providerId
  }

  /** A delivered row has its message in the log and stores what the provider returned. */
  predicate ProvenRow(id: Id, row: Row, messages: Messages, ids: ProviderIds) {
    row.status.Delivered? ==>
      && Key(id) in ids && Answered(id, row.mail.recipient, ids[Key(id)], messages, ids)
      && row.providerId == Some(Prefix(ids[Key(id)], 500))
  }

  predicate Proven(s: State) {
    forall id {:trigger ProvenRow(id, s.rows[id], s.messages, s.providerIds)} | id in s.rows ::
      ProvenRow(id, s.rows[id], s.messages, s.providerIds)
  }

  predicate StageOk(run: Run, rows: Rows, res: Reservations, messages: Messages, ids: ProviderIds) {
    && (forall item | item in run.queue :: item.id in rows)
    && (run.queue != [] ==>
          var id := run.queue[0].id;
          && (run.stage.Reserving? || run.stage.Deferring? ==> !IsSecurity(rows[id].mail))
          && (run.stage.Sending? ==> Cleared(id, rows, res))
          && (run.stage.Completing? ==> Answered(id, rows[id].mail.recipient, run.stage.providerId, messages, ids)))
  }

  predicate Stages(s: State) {
    forall r | 0 <= r < |s.runs| :: StageOk(s.runs[r], s.rows, s.reservations, s.messages, s.providerIds)
  }

  /** Mail about the account's security never waits for the quota. */
  predicate Undeferred(rows: Rows, h: seq<Event>) {
    forall e | e in h && e.Finished? && e.outcome.WasPostponed? :: e.id in rows && !IsSecurity(rows[e.id].mail)
  }

  ghost predicate Honest(cfg: Config, s: State) {
    && Quoted(cfg, s.reservations) && Reserved(s.rows, s.reservations)
    && Log(s.rows, s.reservations, s.messages, s.providerIds)
    && Undeferred(s.rows, s.history) && Proven(s) && Stages(s)
  }

  // ----- nothing is taken back

  /** Deliveries keep their mail; reservations, messages and answers stay. */
  predicate Grows(s: State, t: State) {
    && (forall id | id in s.rows :: id in t.rows && t.rows[id].mail == s.rows[id].mail)
    && (forall id | id in s.reservations :: id in t.reservations)
    && (forall k | k in s.providerIds :: k in t.providerIds && t.providerIds[k] == s.providerIds[k])
    && (forall m | m in s.messages :: m in t.messages)
  }

  lemma StagesKept(s: State, t: State, r: nat)
    requires Stages(s) && Grows(s, t) && |t.runs| == |s.runs|
    requires forall q | 0 <= q < |s.runs| && q != r :: t.runs[q] == s.runs[q]
    requires r < |s.runs| ==> StageOk(t.runs[r], t.rows, t.reservations, t.messages, t.providerIds)
    ensures Stages(t)
  {
    forall q | 0 <= q < |t.runs| ensures StageOk(t.runs[q], t.rows, t.reservations, t.messages, t.providerIds) {
      assert StageOk(s.runs[q], s.rows, s.reservations, s.messages, s.providerIds);
    }
  }

  /** Only rows change, and not their mail: the quota, the log and the exemptions are untouched. */
  predicate SameMail(rows: Rows, rows': Rows) {
    rows'.Keys == rows.Keys && forall id | id in rows :: rows'[id].mail == rows[id].mail
  }

  lemma LogKept(rows: Rows, rows': Rows, res: Reservations, messages: Messages, ids: ProviderIds)
    requires Log(rows, res, messages, ids) && Reserved(rows, res)
    requires forall id | id in rows :: id in rows' && rows'[id].mail == rows[id].mail
    ensures Log(rows', res, messages, ids) && Reserved(rows', res)
  {
    forall m | m in messages ensures Logged(m, rows', res, ids) {
      assert Logged(m, rows, res, ids);
    }
  }

  // ----- finishing

  lemma FinishProven(s: State, r: nat, item: Item, verdict: Verdict, now: Time, acked: bool)
    requires Proven(s)
    requires verdict.Deliver? && item.id in s.rows ==>
               Answered(item.id, s.rows[item.id].mail.recipient, verdict.providerId, s.messages, s.providerIds)
    ensures var t := Finish(s, r, item, verdict, now, acked); Proven(t) && SameMail(s.rows, t.rows)
  {
    var t := Finish(s, r, item, verdict, now, acked);
    forall id | id in t.rows ensures ProvenRow(id, t.rows[id], t.messages, t.providerIds) {
      assert ProvenRow(id, s.rows[id], s.messages, s.providerIds);
    }
  }

  lemma FinishUndeferred(s: State, r: nat, item: Item, verdict: Verdict, now: Time, acked: bool)
    requires Undeferred(s.rows, s.history) && item.id in s.rows
    requires verdict.Postpone? ==> !IsSecurity(s.rows[item.id].mail)
    ensures var t := Finish(s, r, item, verdict, now, acked); Undeferred(t.rows, t.history)
  {
    var t := Finish(s, r, item, verdict, now, acked);
    forall e | e in t.history && e.Finished? && e.outcome.WasPostponed?
      ensures e.id in t.rows && !IsSecurity(t.rows[e.id].mail)
    {
      assert e in s.history || e.id == item.id;
    }
  }

  lemma FinishStages(s: State, t: State, r: nat, onError: Run)
    requires Stages(s) && Busy(s, r) && OnlyFinishes(s, t, r, onError)
    requires onError.stage.Failing? || onError.queue == []
    requires onError.queue == [] || onError.queue == s.runs[r].queue
    ensures Stages(t)
  {
    var run := s.runs[r];
    assert StageOk(run, s.rows, s.reservations, s.messages, s.providerIds);
    assert forall x | x in t.runs[r].queue :: x in run.queue;
    StagesKept(s, t, r);
  }

  /** Only rows and runs changed, and the rows kept their mail. */
  lemma RowsHonest(cfg: Config, s: State, t: State)
    requires Honest(cfg, s) && SameMail(s.rows, t.rows)
    requires t.reservations == s.reservations && t.providerIds == s.providerIds && t.messages == s.messages
    requires Undeferred(t.rows, t.history) && Proven(t) && Stages(t)
    ensures Honest(cfg, t)
  {
    LogKept(s.rows, t.rows, s.reservations, s.messages, s.providerIds);
  }

  lemma CommittedHonest(cfg: Config, s: State, r: nat, verdict: Verdict, acked: bool, t: State)
    requires Honest(cfg, s) && Busy(s, r) && Stages(t)
    requires verdict.Deliver? ==> s.runs[r].stage == Completing(verdict.providerId)
    requires verdict.Postpone? ==> s.runs[r].stage.Deferring?
    requires t == Finish(s, r, s.runs[r].queue[0], verdict, s.runs[r].now, acked).(runs := t.runs)
    ensures Honest(cfg, t)
  {
    var run := s.runs[r];
    assert StageOk(run, s.rows, s.reservations, s.messages, s.providerIds);
    FinishProven(s, r, run.queue[0], verdict, run.now, acked);
    FinishUndeferred(s, r, run.queue[0], verdict, run.now, acked);
    assert Proven(t);
    RowsHonest(cfg, s, t);
  }

  lemma FinishHonest(cfg: Config, s: State, r: nat, verdict: Verdict, commit: Commit, onError: Run)
    requires Honest(cfg, s) && Busy(s, r)
    requires verdict.Deliver? ==> s.runs[r].stage == Completing(verdict.providerId)
    requires verdict.Postpone? ==> s.runs[r].stage.Deferring?
    requires onError.stage.Failing? || onError.queue == []
    requires onError.queue == [] || onError.queue == s.runs[r].queue
    ensures Honest(cfg, FinishRun(s, r, verdict, commit, onError))
  {
    var t := FinishRun(s, r, verdict, commit, onError);
    FinishMoves(s, r, verdict, commit, onError);
    FinishStages(s, t, r, onError);
    if commit.Aborted? {
      assert Proven(t);
      RowsHonest(cfg, s, t);
    } else {
      CommittedHonest(cfg, s, r, verdict, commit.Acked?, t);
    }
  }

  // ----- claiming and enqueueing

  lemma ClaimOneProven(s: State, r: nat, now: Time, id: Id)
    requires id in s.rows && Undeferred(s.rows, s.history) && Proven(s)
    ensures var t := ClaimOne(s, r, now, id);
            Undeferred(t.rows, t.history) && Proven(t) && SameMail(s.rows, t.rows)
  {
    var t := ClaimOne(s, r, now, id);
    forall i | i in t.rows ensures ProvenRow(i, t.rows[i], t.messages, t.providerIds) {
      assert ProvenRow(i, s.rows[i], s.messages, s.providerIds);
    }
    forall e | e in t.history && e.Finished? ensures e in s.history {
    }
  }

  lemma {:induction false} ClaimAllProven(s: State, r: nat, now: Time, ids: seq<Id>)
    requires (forall id | id in ids :: id in s.rows) && Undeferred(s.rows, s.history) && Proven(s)
    ensures var t := ClaimAll(s, r, now, ids);
            && Undeferred(t.rows, t.history) && Proven(t) && SameMail(s.rows, t.rows)
            && t.reservations == s.reservations && t.providerIds == s.providerIds && t.messages == s.messages
            && t.runs == s.runs
    decreases |ids|
  {
    if ids != [] {
      ClaimOneProven(s, r, now, ids[0]);
      ClaimAllProven(ClaimOne(s, r, now, ids[0]), r, now, ids[1..]);
    }
  }

  lemma NewRunHonest(cfg: Config, s: State, run: Run)
    requires Honest(cfg, s) && run.stage.Begin? && forall item | item in run.queue :: item.id in s.rows
    ensures Honest(cfg, s.(runs := s.runs + [run]))
  {
    var t := s.(runs := s.runs + [run]);
    assert Proven(t);
    forall q | 0 <= q < |t.runs| ensures StageOk(t.runs[q], t.rows, t.reservations, t.messages, t.providerIds) {
      assert q < |s.runs| ==> StageOk(s.runs[q], s.rows, s.reservations, s.messages, s.providerIds);
    }
  }

  lemma ClaimHonest(cfg: Config, s: State, now: Time, ids: seq<Id>, commit: Commit)
    requires Honest(cfg, s) && Enabled(cfg, s, Claim(now, ids, commit))
    ensures Honest(cfg, Apply(cfg, s, Claim(now, ids, commit)))
  {
    if !commit.Aborted? {
      var c := ClaimAll(s, |s.runs|, now, ids);
      ClaimAllProven(s, |s.runs|, now, ids);
      LogKept(s.rows, c.rows, s.reservations, s.messages, s.providerIds);
      StagesKept(s, c, |s.runs|);
      NewRunHonest(cfg, c, NewRun(now, c.rows, ids, commit.Acked?));
    }
  }

  lemma EnqueueHonest(cfg: Config, s: State, id: Id, row: Row)
    requires Honest(cfg, s) && id !in s.rows && Fresh(row)
    ensures Honest(cfg, s.(rows := s.rows[id := row]))
  {
    var t := s.(rows := s.rows[id := row]);
    LogKept(s.rows, t.rows, s.reservations, s.messages, s.providerIds);
    forall i | i in t.rows ensures ProvenRow(i, t.rows[i], t.messages, t.providerIds) {
      assert i in s.rows ==> ProvenRow(i, s.rows[i], s.messages, s.providerIds);
    }
    StagesKept(s, t, |s.runs|);
  }

  // ----- the quota

  lemma CheckHonest(cfg: Config, s: State, r: nat, readOk: bool)
    requires Honest(cfg, s) && Busy(s, r)
    ensures Honest(cfg, ToStage(s, r, CheckStage(s, s.runs[r].queue[0].id, readOk)))
  {
    var t := ToStage(s, r, CheckStage(s, s.runs[r].queue[0].id, readOk));
    assert StageOk(s.runs[r], s.rows, s.reservations, s.messages, s.providerIds);
    assert Proven(t);
    StagesKept(s, t, r);
  }

  lemma CrashHonest(cfg: Config, s: State, r: nat)
    requires Honest(cfg, s) && r < |s.runs|
    ensures Honest(cfg, SetRun(s, r, Stopped(s.runs[r])))
  {
    var t := SetRun(s, r, Stopped(s.runs[r]));
    assert Proven(t);
    StagesKept(s, t, r);
  }

  lemma InsertHonest(cfg: Config, s: State, id: Id, date: int)
    requires Honest(cfg, s) && id in s.rows && id !in s.reservations && !IsSecurity(s.rows[id].mail)
    requires NextSlot(s.reservations, s.rows[id].mail.recipient, date) <= cfg.quota
    ensures var user := s.rows[id].mail.recipient;
            Honest(cfg, s.(reservations := s.reservations[id := Reservation(user, date, NextSlot(s.reservations, user, date))]))
  {
    var user := s.rows[id].mail.recipient;
    InsertQuoted(cfg, s.reservations, id, user, date);
    var t := s.(reservations := s.reservations[id := Reservation(user, date, NextSlot(s.reservations, user, date))]);
    forall m | m in t.messages ensures Logged(m, t.rows, t.reservations, t.providerIds) {
      assert Logged(m, s.rows, s.reservations, s.providerIds);
    }
    assert Proven(t);
    StagesKept(s, t, |s.runs|);
  }

  lemma StageHonest(cfg: Config, s: State, r: nat, stage: Stage)
    requires Honest(cfg, s) && r < |s.runs|
    requires StageOk(s.runs[r].(stage := stage), s.rows, s.reservations, s.messages, s.providerIds)
    ensures Honest(cfg, ToStage(s, r, stage))
  {
    var t := ToStage(s, r, stage);
    assert Proven(t);
    StagesKept(s, t, r);
  }

  lemma ReserveHonest(cfg: Config, s: State, r: nat, commit: Commit)
    requires Honest(cfg, s) && Busy(s, r) && s.runs[r].stage.Reserving?
    ensures Honest(cfg, ReserveStep(cfg, s, r, commit))
  {
    var id := s.runs[r].queue[0].id;
    var user, date := s.rows[id].mail.recipient, Date(s.runs[r].now);
    var slot := NextSlot(s.reservations, user, date);
    assert StageOk(s.runs[r], s.rows, s.reservations, s.messages, s.providerIds);
    if commit.Aborted? || slot > cfg.quota || id in s.reservations {
      StageHonest(cfg, s, r, if !commit.Acked? || slot <= cfg.quota then DATABASE_ERROR else Deferring);
    } else {
      InsertHonest(cfg, s, id, date);
      StageHonest(cfg, s.(reservations := s.reservations[id := Reservation(user, date, slot)]), r,
                  if commit.Acked? then Sending else DATABASE_ERROR);
    }
  }

  // ----- the provider

  lemma AcceptLog(s: State, id: Id, providerId: string, now: Time)
    requires Log(s.rows, s.reservations, s.messages, s.providerIds)
    requires Cleared(id, s.rows, s.reservations) && Renderable(s.rows[id].mail)
    ensures var t := Accept(s, id, providerId, now);
            && Log(t.rows, t.reservations, t.messages, t.providerIds) && Grows(s, t) && Key(id) in t.providerIds
            && Answered(id, s.rows[id].mail.recipient, t.providerIds[Key(id)], t.messages, t.providerIds)
  {
    var t := Accept(s, id, providerId, now);
    if Key(id) in s.providerIds {
      var m :| m in s.messages && Key(m.delivery) == Key(id);
      KeyInjective(m.delivery, id);
      assert Logged(m, s.rows, s.reservations, s.providerIds);
    } else {
      var last := Message(id, s.rows[id].mail.recipient, Date(now));
      assert t.messages[|s.messages|] == last;
      forall m | m in t.messages ensures Logged(m, t.rows, t.reservations, t.providerIds) {
        assert m in s.messages ==> Logged(m, s.rows, s.reservations, s.providerIds);
      }
      AcceptSentOnce(s, id, providerId, now);
    }
  }

  lemma AcceptSentOnce(s: State, id: Id, providerId: string, now: Time)
    requires Log(s.rows, s.reservations, s.messages, s.providerIds) && id in s.rows && Key(id) !in s.providerIds
    ensures var t := Accept(s, id, providerId, now); SentOnce(t.messages) && KeysLogged(t.messages, t.providerIds)
  {
    var t := Accept(s, id, providerId, now);
    forall i | 0 <= i < |s.messages| ensures s.messages[i].delivery != id {
      assert Logged(s.messages[i], s.rows, s.reservations, s.providerIds);
    }
    assert t.messages[|s.messages|].delivery == id;
    forall k | k in t.providerIds ensures exists m | m in t.messages :: Key(m.delivery) == k {
      if k in s.providerIds {
        var m :| m in s.messages && Key(m.delivery) == k;
        assert m in t.messages;
      } else {
        assert t.messages[|s.messages|] in t.messages;
      }
    }
  }

  lemma SendHonest(cfg: Config, s: State, r: nat, reply: Reply)
    requires Honest(cfg, s) && Busy(s, r) && s.runs[r].stage.Sending?
    requires !reply.Refused? ==> Renderable(s.rows[s.runs[r].queue[0].id].mail)
    ensures Honest(cfg, SendStep(s, r, reply))
  {
    var id := s.runs[r].queue[0].id;
    var t := SendStep(s, r, reply);
    assert StageOk(s.runs[r], s.rows, s.reservations, s.messages, s.providerIds);
    if !reply.Refused? {
      AcceptLog(s, id, reply.providerId, s.runs[r].now);
    }
    forall i | i in t.rows ensures ProvenRow(i, t.rows[i], t.messages, t.providerIds) {
      assert ProvenRow(i, s.rows[i], s.messages, s.providerIds);
    }
    StagesKept(s, t, r);
  }

  lemma StepHonest(cfg: Config, s: State, a: Action)
    requires Honest(cfg, s)
    ensures Honest(cfg, Apply(cfg, s, a))
  {
    if Enabled(cfg, s, a) {
      match a
      case Enqueue(id, row) => EnqueueHonest(cfg, s, id, row);
      case Claim(now, ids, commit) => ClaimHonest(cfg, s, now, ids, commit);
      case Check(r, readOk) => CheckHonest(cfg, s, r, readOk);
      case Reserve(r, commit) => ReserveHonest(cfg, s, r, commit);
      case Send(r, reply) => SendHonest(cfg, s, r, reply);
      case Crash(r) => CrashHonest(cfg, s, r);
      case _ => FinishHonest(cfg, s, a.run, VerdictOf(cfg, s.runs[a.run], a), a.commit, OnError(s.runs[a.run], a));
    }
  }

  lemma {:induction false} ReachableHonest(cfg: Config, actions: seq<Action>)
    ensures Honest(cfg, Exec(cfg, INIT, actions))
    decreases |actions|
  {
    if actions == [] {
      forall user, date ensures SlotsExact(cfg, INIT.reservations, user, date) {
        assert Holders(INIT.reservations, user, date) == {} && Slots(INIT.reservations, user, date) == {};
      }
    } else {
      ReachableHonest(cfg, actions[..|actions| - 1]);
      StepHonest(cfg, Exec(cfg, INIT, actions[..|actions| - 1]), actions[|actions| - 1]);
    }
  }
}
