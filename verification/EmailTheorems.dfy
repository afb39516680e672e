/** What holds of every interleaving of e-mail workers, crashes, lost acknowledgements and arbitrary clocks. */
module EmailTheorems {
  import opened Prelude
  import opened EmailTables
  import opened EmailMachine
  import opened EmailFencing
  import opened EmailLedger
  import opened EmailQuota
  import opened EmailLog
  import opened EmailSteps

  // ----- fencing

  /** A token is handed out once and settled at most once, by the run that got it; and once a delivery has been
      claimed again, no older token settles it. */
  lemma Fencing(cfg: Config, actions: seq<Action>, i: nat, j: nat)
    requires i < j < |Exec(cfg, INIT, actions).history|
    requires Exec(cfg, INIT, actions).history[i].id == Exec(cfg, INIT, actions).history[j].id
    ensures var h := Exec(cfg, INIT, actions).history;
            && (h[i].Claimed? && h[j].Claimed? ==> h[i].token < h[j].token)
            && (h[i].Finished? && h[j].Finished? ==> h[i].token < h[j].token)
            && (h[i].Claimed? && h[j].Finished? ==> h[i].token <= h[j].token)
            && (h[i].Finished? && h[j].Claimed? ==> h[i].token < h[j].token)
  {
    ReachableFenced(cfg, actions);
    var h := Exec(cfg, INIT, actions).history;
    assert Precedes(h[i], h[j]);
  }

  /** Whatever settles a row is the run that an earlier claim gave the token to. */
  lemma SettledByHolder(cfg: Config, actions: seq<Action>, j: nat)
    requires j < |Exec(cfg, INIT, actions).history| && Exec(cfg, INIT, actions).history[j].Finished?
    ensures var h := Exec(cfg, INIT, actions).history; Handed(h[..j], h[j].run, h[j].id, h[j].token)
  {
    ReachableFenced(cfg, actions);
    var s := Exec(cfg, INIT, actions);
    assert Sound(s.history[j], s.rows, s.history);
    HandedBefore(s.history, j);
  }

  lemma HandedBefore(h: seq<Event>, j: nat)
    requires Ordered(h) && j < |h| && h[j].Finished? && Handed(h, h[j].run, h[j].id, h[j].token)
    ensures Handed(h[..j], h[j].run, h[j].id, h[j].token)
  {
    assert forall i | j < i < |h| :: Precedes(h[j], h[i]);
    var k :| 0 <= k < |h| && h[k].Claimed? && h[k].run == h[j].run && h[k].id == h[j].id && h[k].token == h[j].token;
    assert h[..j][k] == h[k];
  }

  /** A worker whose delivery was claimed again changes neither the row nor any counter when it finishes. */
  lemma StaleWorkerIsHarmless(cfg: Config, actions: seq<Action>, a: Action, later: Event)
    requires IsFinish(a) && Enabled(cfg, Exec(cfg, INIT, actions), a)
    requires later in Exec(cfg, INIT, actions).history && later.Claimed?
    requires var item := Exec(cfg, INIT, actions).runs[a.run].queue[0]; later.id == item.id && later.token > item.token
    ensures var s := Exec(cfg, INIT, actions); var t := Apply(cfg, s, a);
            && t.rows == s.rows && t.history == s.history && t.reservations == s.reservations
            && t.runs[a.run].delivered == s.runs[a.run].delivered
  {
    ReachableFenced(cfg, actions);
    var s := Exec(cfg, INIT, actions);
    assert Sound(later, s.rows, s.history);
    UnheldFinish(s, a.run, VerdictOf(cfg, s.runs[a.run], a), a.commit, OnError(s.runs[a.run], a));
  }

  /** The history got an event on this delivery with this token. */
  predicate Recorded(before: seq<Event>, after: seq<Event>, id: Id, token: nat) {
    exists k | |before| <= k < |after| :: after[k].id == id && after[k].token == token
  }

  /** No step changes an existing row without recording it, with the row's token, in the history. */
  lemma RowChangesAreRecorded(cfg: Config, s: State, a: Action, id: Id)
    requires id in s.rows
    ensures var t := Apply(cfg, s, a);
            && s.history <= t.history && id in t.rows && t.rows[id].mail == s.rows[id].mail
            && (t.rows[id] != s.rows[id] ==> Recorded(s.history, t.history, id, t.rows[id].attempts))
  {
    if Enabled(cfg, s, a) {
      if a.Claim? {
        ClaimsAreRecorded(s, |s.runs|, a.now, a.ids, id);
      } else if IsFinish(a) {
        FinishIsRecorded(s, a.run, VerdictOf(cfg, s.runs[a.run], a), a.commit, OnError(s.runs[a.run], a), id);
      } else if !a.Enqueue? {
        WorkerMoves(cfg, s, a);
      }
    }
  }

  lemma FinishIsRecorded(s: State, r: nat, verdict: Verdict, commit: Commit, onError: Run, id: Id)
    requires Busy(s, r) && id in s.rows
    ensures var t := FinishRun(s, r, verdict, commit, onError);
            && s.history <= t.history && id in t.rows && t.rows[id].mail == s.rows[id].mail
            && (t.rows[id] != s.rows[id] ==> Recorded(s.history, t.history, id, t.rows[id].attempts))
  {
    var t := FinishRun(s, r, verdict, commit, onError);
    if t.rows[id] != s.rows[id] {
      assert t.history[|s.history|].id == id;
    }
  }

  lemma {:induction false} ClaimsAreRecorded(s: State, r: nat, now: Time, ids: seq<Id>, id: Id)
    requires id in s.rows && (forall i | i in ids :: i in s.rows) && Distinct(ids)
    ensures var t := ClaimAll(s, r, now, ids);
            && s.history <= t.history && t.rows[id].mail == s.rows[id].mail
            && (id !in ids ==> t.rows[id] == s.rows[id])
            && (id in ids ==> Recorded(s.history, t.history, id, t.rows[id].attempts))
    decreases |ids|
  {
    if ids != [] {
      var c := ClaimOne(s, r, now, ids[0]);
      assert ids[0] !in ids[1..];
      ClaimsAreRecorded(c, r, now, ids[1..], id);
      var t := ClaimAll(s, r, now, ids);
      if id == ids[0] {
        assert t.history[|s.history|] == c.history[|s.history|];
      }
    }
  }

  // ----- delivery

  /** The provider's log holds at most one message per delivery, only for mail that can be rendered, and a row marked
      delivered has its message there and stores the first 500 characters of what the provider returned. */
  lemma EndToEndOnce(cfg: Config, actions: seq<Action>, id: Id)
    requires id in Exec(cfg, INIT, actions).rows
    ensures var s := Exec(cfg, INIT, actions);
            && SentOnce(s.messages)
            && (s.rows[id].status.Delivered? ==>
                  && Key(id) in s.providerIds && s.rows[id].providerId == Some(Prefix(s.providerIds[Key(id)], 500))
                  && exists m | m in s.messages :: m.delivery == id && m.recipient == s.rows[id].mail.recipient)
            && (!Renderable(s.rows[id].mail) ==>
                  !s.rows[id].status.Delivered? && forall m | m in s.messages :: m.delivery != id)
  {
    ReachableHonest(cfg, actions);
    var s := Exec(cfg, INIT, actions);
    assert ProvenRow(id, s.rows[id], s.messages, s.providerIds);
    if exists m | m in s.messages :: m.delivery == id {
      var m :| m in s.messages && m.delivery == id;
      assert Logged(m, s.rows, s.reservations, s.providerIds);
    }
  }

  /** What a send does in a reachable state.  A refusal leaves the provider as it was.  Otherwise it has taken the mail,
      also when its answer was lost: the first time as a message to the recipient under the sender's date, with the answer
      stored; later calls add nothing and get the stored answer. */
  lemma SendIsLogged(cfg: Config, actions: seq<Action>, r: nat, reply: Reply)
    requires Enabled(cfg, Exec(cfg, INIT, actions), Send(r, reply))
    ensures var s := Exec(cfg, INIT, actions); var t := Apply(cfg, s, Send(r, reply));
            var run := s.runs[r]; var id := run.queue[0].id; var sent := exists m | m in s.messages :: m.delivery == id;
            && (reply.Refused? || sent ==> t.messages == s.messages && t.providerIds == s.providerIds)
            && (!reply.Refused? && !sent ==>
                  && t.providerIds == s.providerIds[Key(id) := reply.providerId]
                  && exists date ::
                       && date * 86_400_000_000 <= run.now < (date + 1) * 86_400_000_000
                       && t.messages == s.messages + [Message(id, s.rows[id].mail.recipient, date)])
            && (reply.Accepted? ==> Key(id) in t.providerIds && t.runs[r].stage == Completing(t.providerIds[Key(id)]))
            && (!reply.Accepted? ==> t.runs[r].stage == Failing(reply.permanent, reply.code))
  {
    ReachableHonest(cfg, actions);
    var s := Exec(cfg, INIT, actions);
    var id, now := s.runs[r].queue[0].id, s.runs[r].now;
    KnownIffSent(s, id);
    assert Date(now) * 86_400_000_000 <= now < (Date(now) + 1) * 86_400_000_000;
    assert Apply(cfg, s, Send(r, reply)) == SendStep(s, r, reply);
  }

  /** The provider knows the keys of the deliveries in its log and no others. */
  lemma KnownIffSent(s: State, id: Id)
    requires Log(s.rows, s.reservations, s.messages, s.providerIds)
    ensures Key(id) in s.providerIds <==> exists m | m in s.messages :: m.delivery == id
  {
    if Key(id) in s.providerIds {
      var m :| m in s.messages && Key(m.delivery) == Key(id);
      KeyInjective(m.delivery, id);
    }
    forall m | m in s.messages ensures Logged(m, s.rows, s.reservations, s.providerIds) {
    }
  }

  predicate Terminal(row: Row) {
    row.status.Delivered? || row.status.PermanentFailed?
  }

  /** Delivered and permanently failed rows never change again. */
  lemma {:induction false} TerminalIsAbsorbing(cfg: Config, s: State, actions: seq<Action>, id: Id)
    requires id in s.rows && Terminal(s.rows[id])
    ensures id in Exec(cfg, s, actions).rows && Exec(cfg, s, actions).rows[id] == s.rows[id]
    decreases |actions|
  {
    if actions != [] {
      var n := |actions| - 1;
      TerminalIsAbsorbing(cfg, s, actions[..n], id);
      TerminalStep(cfg, Exec(cfg, s, actions[..n]), actions[n], id);
    }
  }

  lemma TerminalStep(cfg: Config, s: State, a: Action, id: Id)
    requires id in s.rows && Terminal(s.rows[id])
    ensures id in Apply(cfg, s, a).rows && Apply(cfg, s, a).rows[id] == s.rows[id]
  {
    if Enabled(cfg, s, a) {
      if a.Claim? {
        assert id !in a.ids;
        ClaimsAreRecorded(s, |s.runs|, a.now, a.ids, id);
      } else if IsFinish(a) {
        FinishKeepsTerminal(s, a.run, VerdictOf(cfg, s.runs[a.run], a), a.commit, OnError(s.runs[a.run], a), id);
      } else if !a.Enqueue? {
        WorkerMoves(cfg, s, a);
      }
    }
  }

  lemma FinishKeepsTerminal(s: State, r: nat, verdict: Verdict, commit: Commit, onError: Run, id: Id)
    requires Busy(s, r) && id in s.rows && Terminal(s.rows[id])
    ensures var t := FinishRun(s, r, verdict, commit, onError); id in t.rows && t.rows[id] == s.rows[id]
  {
  }

  // ----- attempts

  /** Every attempt of a row is accounted for, and at most maxAttempts - 1 of them are recorded retryable failures. */
  lemma AttemptsAreAccountedFor(cfg: Config, actions: seq<Action>, id: Id)
    requires id in Exec(cfg, INIT, actions).rows
    ensures var s := Exec(cfg, INIT, actions); var h := s.history; var row := s.rows[id];
            && row.attempts == Count(h, Claims(id))
            && row.attempts == Count(h, Retries(id)) + Count(h, Deferrals(id)) + Count(h, Reclaims(id)) + Open(row.status)
            && Count(h, Retries(id)) <= Max(cfg.maxAttempts - 1, 0)
  {
    ReachableLedger(cfg, actions);
    var s := Exec(cfg, INIT, actions);
    assert Balanced(cfg, s.rows[id], id, s.history);
  }

  /** Mail of the identity and moderation services whose lease is never lost is claimed at most maxAttempts times (once if
      that is not positive), and from the last claim on it is being worked on, delivered or given up. */
  lemma SecurityMailTerminates(cfg: Config, actions: seq<Action>, id: Id)
    requires id in Exec(cfg, INIT, actions).rows
    requires var t := Exec(cfg, INIT, actions).rows[id].mail.eventType; "identity." <= t || "moderation." <= t
    requires Count(Exec(cfg, INIT, actions).history, Reclaims(id)) == 0
    ensures var s := Exec(cfg, INIT, actions); var row := s.rows[id];
            && Count(s.history, Claims(id)) <= Max(cfg.maxAttempts, 1)
            && (Count(s.history, Claims(id)) == Max(cfg.maxAttempts, 1) ==> row.status.Processing? || Terminal(row))
  {
    var s := Exec(cfg, INIT, actions);
    AttemptsAreAccountedFor(cfg, actions, id);
    ReachableHonest(cfg, actions);
    NoDeferrals(s.rows, s.history, id);
  }

  lemma {:induction false} NoDeferrals(rows: Rows, h: seq<Event>, id: Id)
    requires Undeferred(rows, h) && id in rows && IsSecurity(rows[id].mail)
    ensures Count(h, Deferrals(id)) == 0
    decreases |h|
  {
    if h != [] {
      assert h[|h| - 1] in h;
      NoDeferrals(rows, h[..|h| - 1], id);
    }
  }

  /** An acknowledged finish by the token's holder settles the row for good exactly when it is a completion, a permanent
      failure or the end of the last allowed attempt; any other finish leaves a row to be retried. */
  lemma SettledForGoodIff(cfg: Config, actions: seq<Action>, a: Action)
    requires IsFinish(a) && a.commit.Acked? && Enabled(cfg, Exec(cfg, INIT, actions), a)
    requires var s := Exec(cfg, INIT, actions); var item := s.runs[a.run].queue[0]; Holds(s.rows, item.id, item.token)
    ensures var s := Exec(cfg, INIT, actions); var run := s.runs[a.run]; var item := run.queue[0];
            var row := Apply(cfg, s, a).rows[item.id];
            if a.Complete? || (a.Fail? && (run.stage.permanent || item.token >= cfg.maxAttempts)) then Terminal(row)
            else row.status.RetryableFailed? && row.nextAttemptAt.Some? && row.nextAttemptAt.value > run.now
  {
    var run := Exec(cfg, INIT, actions).runs[a.run];
    assert NextMidnight(run.now) > run.now;
    assert RetryAt(run.queue[0].token, run.now) > run.now;
  }

  /** A database error never gives mail up for good by itself: the run stands on the same item with a failure that is not
      permanent, and recording it for a token that is held, below the attempt limit, leaves a row to be retried. */
  lemma DatabaseErrorsAreRetried(cfg: Config, s: State, a: Action)
    requires (a.Check? && !a.readOk) || ((a.Reserve? || a.Defer? || a.Complete?) && !a.commit.Acked?)
    requires Enabled(cfg, s, a)
    ensures var t := Apply(cfg, s, a); var run := t.runs[a.run]; var item := s.runs[a.run].queue[0];
            && run.queue == s.runs[a.run].queue && (!a.Check? ==> run.stage.Failing?)
            && (run.stage.Failing? ==>
                  && !run.stage.permanent
                  && (Holds(t.rows, item.id, item.token) && item.token < cfg.maxAttempts ==>
                        Apply(cfg, t, Fail(a.run, Acked)).rows[item.id].status.RetryableFailed?))
  {
    if IsFinish(a) {
      RaisedFinish(s, a.run, VerdictOf(cfg, s.runs[a.run], a), a.commit, OnError(s.runs[a.run], a));
    } else {
      WorkerMoves(cfg, s, a);
    }
    if Apply(cfg, s, a).runs[a.run].stage.Failing? {
      RetriedIfHeld(cfg, Apply(cfg, s, a), a.run);
    }
  }

  lemma RaisedFinish(s: State, r: nat, verdict: Verdict, commit: Commit, onError: Run)
    requires Busy(s, r) && !commit.Acked?
    ensures var t := FinishRun(s, r, verdict, commit, onError);
            |t.runs| == |s.runs| && t.runs[r] == onError && t.rows.Keys == s.rows.Keys
  {
  }

  lemma RetriedIfHeld(cfg: Config, s: State, r: nat)
    requires Busy(s, r) && s.runs[r].stage.Failing? && !s.runs[r].stage.permanent
    ensures var item := s.runs[r].queue[0];
            Holds(s.rows, item.id, item.token) && item.token < cfg.maxAttempts ==>
              Apply(cfg, s, Fail(r, Acked)).rows[item.id].status.RetryableFailed?
  {
    if s.runs[r].queue[0].token < cfg.maxAttempts {
      FailedRow(cfg, s, r);
    }
  }

  /** The first instant at which a row that is not settled can be claimed. */
  function Due(row: Row, lease: int): Time {
    if row.status.Processing? && row.startedAt.Some? then row.startedAt.value + lease
    else if row.nextAttemptAt.Some? then row.nextAttemptAt.value
    else 0
  }

  /** No row is ever stuck: whatever crashed, an unsettled row can be claimed by any later clock, and the claim hands
      out the next token. */
  lemma NeverStuck(cfg: Config, actions: seq<Action>, id: Id, now: Time)
    requires id in Exec(cfg, INIT, actions).rows && !Terminal(Exec(cfg, INIT, actions).rows[id])
    requires now >= Due(Exec(cfg, INIT, actions).rows[id], cfg.lease)
    ensures var s := Exec(cfg, INIT, actions); var t := Apply(cfg, s, Claim(now, [id], Acked));
            && t.rows[id].status.Processing?
            && t.runs == s.runs + [Run(now, [Item(id, s.rows[id].attempts + 1)], Begin, 0, false)]
  {
    DueIsClaimable(cfg, actions, id, now);
    ClaimSingle(cfg, Exec(cfg, INIT, actions), now, id);
  }

  lemma DueIsClaimable(cfg: Config, actions: seq<Action>, id: Id, now: Time)
    requires id in Exec(cfg, INIT, actions).rows && !Terminal(Exec(cfg, INIT, actions).rows[id])
    requires now >= Due(Exec(cfg, INIT, actions).rows[id], cfg.lease)
    ensures Claimable(Exec(cfg, INIT, actions).rows[id], now, cfg.lease)
  {
    ReachableLedger(cfg, actions);
    var s := Exec(cfg, INIT, actions);
    assert Balanced(cfg, s.rows[id], id, s.history);
    ClaimableWhenDue(cfg, s.rows[id], id, s.history, now);
  }

  lemma ClaimableWhenDue(cfg: Config, row: Row, id: Id, h: seq<Event>, now: Time)
    requires Balanced(cfg, row, id, h) && !Terminal(row) && now >= Due(row, cfg.lease)
    ensures Claimable(row, now, cfg.lease)
  {
  }

  // ----- when a row can be claimed again

  /** A claim keeps every clock short of the lease's end away. */
  lemma LeaseHolds(row: Row, claimed: Time, t: Time, lease: int)
    ensures Claimable(ClaimedRow(row, claimed), t, lease) <==> t >= claimed + lease
  {
  }

  /** Mail over quota that was deferred on day d of the epoch can be claimed again from the start of day d + 1 on, which is
      the next UTC date, and not before; a day has 86 400 000 000 microseconds. */
  lemma DeferredUntilTomorrow(rows: Rows, id: Id, token: nat, now: Time, d: int, t: Time, lease: int)
    requires Holds(rows, id, token) && d * 86_400_000_000 <= now < (d + 1) * 86_400_000_000
    ensures Claimable(Settle(rows, id, token, Postpone, now)[id], t, lease) <==> t >= (d + 1) * 86_400_000_000
    ensures Claimable(Settle(rows, id, token, Postpone, now)[id], t, lease) <==> Date(t) > Date(now)
  {
    assert Date(now) == d;
    assert t >= NextMidnight(now) <==> Date(t) > d;
  }

  /** A row whose failure is to be retried can be claimed again once 2^min(token, 8) minutes have passed, and not before. */
  lemma RetriedWhenDue(rows: Rows, id: Id, token: nat, code: string, now: Time, t: Time, lease: int)
    requires Holds(rows, id, token)
    ensures Claimable(Settle(rows, id, token, Retry(code), now)[id], t, lease) <==> t >= now + 60_000_000 * Pow2(Min(token, 8))
  {
  }

  /** In every reachable state: the holder of token k that records a failure which is neither permanent nor its last
      allowed attempt leaves a row that can be claimed again 2^min(k, 8) minutes later, and not before: after 2 minutes the
      first time, never after more than 256. */
  lemma RetryWaits(cfg: Config, actions: seq<Action>, r: nat, t: Time)
    requires Enabled(cfg, Exec(cfg, INIT, actions), Fail(r, Acked)) && !Exec(cfg, INIT, actions).runs[r].stage.permanent
    requires var s := Exec(cfg, INIT, actions); var item := s.runs[r].queue[0];
             Holds(s.rows, item.id, item.token) && item.token < cfg.maxAttempts
    ensures var s := Exec(cfg, INIT, actions); var item, now := s.runs[r].queue[0], s.runs[r].now;
            var row := Apply(cfg, s, Fail(r, Acked)).rows[item.id];
            && (Claimable(row, t, cfg.lease) <==> t >= now + 60_000_000 * Pow2(Min(item.token, 8)))
            && (t < now + 120_000_000 ==> !Claimable(row, t, cfg.lease))
            && (t >= now + 15_360_000_000 ==> Claimable(row, t, cfg.lease))
  {
    var s := Exec(cfg, INIT, actions);
    var run := s.runs[r];
    var item := run.queue[0];
    ReachableFenced(cfg, actions);
    TokensArePositive(s, r);
    FailedRow(cfg, s, r);
    RetriedWhenDue(s.rows, item.id, item.token, run.stage.code, run.now, t, cfg.lease);
    RetryGrows(item.token, run.now);
  }

  lemma TokensArePositive(s: State, r: nat)
    requires Fenced(s) && Busy(s, r)
    ensures s.runs[r].queue[0].token >= 1
  {
    var item := s.runs[r].queue[0];
    assert OwnsQueue(s.runs[r], r, s.history) && Handed(s.history, r, item.id, item.token);
  }

  /** What recording a failure that may be retried leaves. */
  lemma FailedRow(cfg: Config, s: State, r: nat)
    requires Enabled(cfg, s, Fail(r, Acked)) && !s.runs[r].stage.permanent && s.runs[r].queue[0].token < cfg.maxAttempts
    ensures var run := s.runs[r]; var item := run.queue[0];
            Apply(cfg, s, Fail(r, Acked)).rows == Settle(s.rows, item.id, item.token, Retry(run.stage.code), run.now)
  {
  }

  /** The wait after a failure doubles from two minutes with each token, up to 256 minutes. */
  lemma RetryGrows(token: nat, now: Time)
    requires token >= 1
    ensures token < 8 ==> RetryAt(token + 1, now) - now == 2 * (RetryAt(token, now) - now)
    ensures token >= 8 ==> RetryAt(token, now) - now == 15_360_000_000
    ensures now + 120_000_000 <= RetryAt(token, now) <= now + 15_360_000_000
  {
    assert Pow2(8) == 256;
    PowersGrow(1, Min(token, 8));
    PowersGrow(Min(token, 8), 8);
  }

  lemma {:induction false} PowersGrow(m: nat, n: nat)
    requires m <= n
    ensures Pow2(m) <= Pow2(n)
    decreases n
  {
    if m < n {
      PowersGrow(m, n - 1);
    }
  }

  // ----- quota

  /** The slots of a recipient and date are exactly 1..n with n within the quota, one delivery each. */
  lemma QuotaSlotsAreExact(cfg: Config, actions: seq<Action>, user: User, date: int)
    ensures var res := Exec(cfg, INIT, actions).reservations; var n := |Holders(res, user, date)|;
            && n <= Max(cfg.quota, 0)
            && (forall k :: k in Slots(res, user, date) <==> 1 <= k <= n)
            && forall a, b | a in Holders(res, user, date) && b in Holders(res, user, date) && a != b ::
                 res[a].slot != res[b].slot
  {
    ReachableHonest(cfg, actions);
    assert SlotsExact(cfg, Exec(cfg, INIT, actions).reservations, user, date);
  }

  /** Mail is deferred only when the day is full.  A reservation that finds the quota reached changes nothing; one that
      finds room takes the next slot of the worker's date, unless another worker reserved for the delivery since the
      check and the primary key refuses the insert.  Only an acknowledged commit is acted on. */
  lemma DeferredOnlyWhenFull(cfg: Config, actions: seq<Action>, r: nat, commit: Commit, day: set<Id>)
    requires Enabled(cfg, Exec(cfg, INIT, actions), Reserve(r, commit))
    requires var s := Exec(cfg, INIT, actions);
             var user, date := s.rows[s.runs[r].queue[0].id].mail.recipient, Date(s.runs[r].now);
             forall o :: o in day <==> o in s.reservations && s.reservations[o].user == user && s.reservations[o].date == date
    ensures var s := Exec(cfg, INIT, actions); var t := Apply(cfg, s, Reserve(r, commit));
            var id := s.runs[r].queue[0].id; var user := s.rows[id].mail.recipient; var date := Date(s.runs[r].now);
            var n, stage := |day|, t.runs[r].stage;
            if commit.Aborted? then t.reservations == s.reservations && stage.Failing?
            else if n == Max(cfg.quota, 0) then
              t.reservations == s.reservations && if commit.Acked? then stage.Deferring? else stage.Failing?
            else if id in s.reservations then t.reservations == s.reservations && stage.Failing?
            else
              && t.reservations == s.reservations[id := Reservation(user, date, n + 1)]
              && if commit.Acked? then stage.Sending? else stage.Failing?
  {
    var s := Exec(cfg, INIT, actions);
    var id := s.runs[r].queue[0].id;
    QuotaSlotsAreExact(cfg, actions, s.rows[id].mail.recipient, Date(s.runs[r].now));
    assert day == Holders(s.reservations, s.rows[id].mail.recipient, Date(s.runs[r].now));
    assert Apply(cfg, s, Reserve(r, commit)) == ReserveStep(cfg, s, r, commit);
  }

  /** A reservation is never moved to another date or slot: each delivery has at most the one it got first. */
  lemma {:induction false} ReservationIsForGood(cfg: Config, s: State, actions: seq<Action>, id: Id)
    requires id in s.reservations
    ensures id in Exec(cfg, s, actions).reservations && Exec(cfg, s, actions).reservations[id] == s.reservations[id]
    decreases |actions|
  {
    if actions != [] {
      var n := |actions| - 1;
      ReservationIsForGood(cfg, s, actions[..n], id);
      ReservationStays(cfg, Exec(cfg, s, actions[..n]), actions[n], id);
    }
  }

  lemma ReservationStays(cfg: Config, s: State, a: Action, id: Id)
    requires id in s.reservations
    ensures id in Apply(cfg, s, a).reservations && Apply(cfg, s, a).reservations[id] == s.reservations[id]
  {
    if Enabled(cfg, s, a) {
      match a
      case Claim(now, ids, commit) => ClaimsKeepReservations(s, |s.runs|, now, ids);
      case Reserve(r, commit) => assert ReserveStep(cfg, s, r, commit).reservations[id] == s.reservations[id];
      case Send(r, reply) => assert SendStep(s, r, reply).reservations == s.reservations;
      case Defer(r, commit) => FinishMoves(s, r, Postpone, commit, OnError(s.runs[r], a));
      case Complete(r, commit) => FinishMoves(s, r, VerdictOf(cfg, s.runs[r], a), commit, OnError(s.runs[r], a));
      case Fail(r, commit) => FinishMoves(s, r, VerdictOf(cfg, s.runs[r], a), commit, OnError(s.runs[r], a));
      case _ =>
    }
  }

  lemma {:induction false} ClaimsKeepReservations(s: State, r: nat, now: Time, ids: seq<Id>)
    requires forall i | i in ids :: i in s.rows
    ensures ClaimAll(s, r, now, ids).reservations == s.reservations
    decreases |ids|
  {
    if ids != [] {
      ClaimsKeepReservations(ClaimOne(s, r, now, ids[0]), r, now, ids[1..]);
    }
  }

  /** The deliveries under quota that the provider took for this recipient. */
  function SentTo(s: State, user: User): set<Id> {
    set m | m in s.messages && m.recipient == user && m.delivery in s.rows && !IsSecurity(s.rows[m.delivery].mail) ::
      m.delivery
  }

  function HeldBy(res: Reservations, user: User): set<Id> {
    set id | id in res && res[id].user == user
  }

  function DatesOf(res: Reservations, user: User): set<int> {
    set id | id in HeldBy(res, user) :: res[id].date
  }

  /** Over k reservation dates at most k times the quota is ever sent to one recipient, security mail aside. */
  lemma SentWithinQuota(cfg: Config, actions: seq<Action>, user: User)
    ensures var s := Exec(cfg, INIT, actions);
            |SentTo(s, user)| <= |DatesOf(s.reservations, user)| * Max(cfg.quota, 0)
  {
    ReachableHonest(cfg, actions);
    var s := Exec(cfg, INIT, actions);
    forall id | id in SentTo(s, user) ensures id in HeldBy(s.reservations, user) {
      var m :| m in s.messages && m.recipient == user && m.delivery == id;
      assert Logged(m, s.rows, s.reservations, s.providerIds);
    }
    SubsetSize(SentTo(s, user), HeldBy(s.reservations, user));
    HeldWithin(cfg, s.reservations, user, DatesOf(s.reservations, user), HeldBy(s.reservations, user));
  }

  lemma {:induction false} SubsetSize<T>(a: set<T>, b: set<T>)
    requires a <= b
    ensures |a| <= |b|
  {
    assert b == a + (b - a);
  }

  /** The holders over a set of dates number at most the quota for each date. */
  lemma {:induction false} HeldWithin(cfg: Config, res: Reservations, user: User, dates: set<int>, held: set<Id>)
    requires Quoted(cfg, res)
    requires forall id | id in held :: id in res && res[id].user == user && res[id].date in dates
    ensures |held| <= |dates| * Max(cfg.quota, 0)
    decreases |dates|
  {
    if |dates| == 0 {
      assert held == {};
    } else {
      var d := SomeElement(dates);
      var q := Max(cfg.quota, 0);
      assert SlotsExact(cfg, res, user, d);
      SplitSize(held, Holders(res, user, d));
      HeldWithin(cfg, res, user, dates - {d}, held - Holders(res, user, d));
      assert |dates - {d}| * q + q == |dates| * q by {
        assert |dates| == |dates - {d}| + 1;
        Distribute(|dates - {d}|, q);
      }
    }
  }

  lemma SplitSize<T>(a: set<T>, b: set<T>)
    ensures |a| <= |a - b| + |b|
  {
    SubsetSize(a, (a - b) + b);
  }

  lemma Distribute(n: int, q: int)
    ensures n * q + q == (n + 1) * q
  {
  }

  // ----- the calendar day of sending

  /** The deliveries under quota that were sent to this recipient while the sender's clock showed this date. */
  function SentOn(s: State, user: User, date: int): set<Id> {
    set m | m in s.messages && m.recipient == user && m.date == date
            && m.delivery in s.rows && !IsSecurity(s.rows[m.delivery].mail) :: m.delivery
  }

  /** Those among them that were reserved on another date. */
  function CarriedInto(s: State, user: User, date: int): set<Id> {
    set id | id in SentOn(s, user, date) && id in s.reservations && s.reservations[id].date != date
  }

  /** What is sent on a day is what was reserved for it and what was carried into it, so the cap holds for the day exactly
      when the carried ones fit into the slots that are not sent from. */
  lemma DayIsPartitioned(cfg: Config, actions: seq<Action>, user: User, date: int)
    ensures var s := Exec(cfg, INIT, actions);
            var sent, own, carried := SentOn(s, user, date), SentOn(s, user, date) * Holders(s.reservations, user, date),
                                      CarriedInto(s, user, date);
            && |sent| == |own| + |carried|
            && (|sent| <= Max(cfg.quota, 0) <==> |carried| <= Max(cfg.quota, 0) - |own|)
  {
    ReachableHonest(cfg, actions);
    var s := Exec(cfg, INIT, actions);
    var sent, own, carried := SentOn(s, user, date), SentOn(s, user, date) * Holders(s.reservations, user, date),
                              CarriedInto(s, user, date);
    forall id | id in sent - carried ensures id in Holders(s.reservations, user, date) {
      var m :| m in s.messages && m.recipient == user && m.date == date && m.delivery == id;
      assert Logged(m, s.rows, s.reservations, s.providerIds);
    }
    assert sent == own + carried && own !! carried;
  }

  /** The quota caps reservations, not sends: what is sent on a day is within the quota plus what was carried into it. */
  lemma SentOnADay(cfg: Config, actions: seq<Action>, user: User, date: int)
    ensures var s := Exec(cfg, INIT, actions);
            |SentOn(s, user, date)| <= Max(cfg.quota, 0) + |CarriedInto(s, user, date)|
  {
    var s := Exec(cfg, INIT, actions);
    DayIsPartitioned(cfg, actions, user, date);
    QuotaSlotsAreExact(cfg, actions, user, date);
    SubsetSize(SentOn(s, user, date) * Holders(s.reservations, user, date), Holders(s.reservations, user, date));
  }
}
