/** Accounting: where every attempt went, how often a delivery may be retried, and what the workers' counters add up to. */
module EmailLedger {
  import opened Prelude
  import opened EmailTables
  import opened EmailMachine

  datatype Counter =
    | Claims(id: Id)
    | Reclaims(id: Id)
    | Retries(id: Id)
    | Deferrals(id: Id)
    | Deliveries
    | Increments(run: nat)

  predicate Counts(e: Event, c: Counter) {
    match c
    case Claims(id) => e.Claimed? && e.id == id
    case Reclaims(id) => e.Claimed? && e.id == id && e.reclaimed
    case Retries(id) => e.Finished? && e.id == id && e.outcome.WasRetried?
    case Deferrals(id) => e.Finished? && e.id == id && e.outcome.WasPostponed?
    case Deliveries => e.Finished? && e.outcome.WasDelivered?
    case Increments(run) => e.Finished? && e.outcome.WasDelivered? && e.acked && e.run == run
  }

  function Count(h: seq<Event>, c: Counter): nat {
    if h == [] then 0 else Count(h[..|h| - 1], c) + if Counts(h[|h| - 1], c) then 1 else 0
  }

  lemma CountAppend(h: seq<Event>, e: Event, c: Counter)
    ensures Count(h + [e], c) == Count(h, c) + if Counts(e, c) then 1 else 0
  {
    assert (h + [e])[..|h|] == h;
  }

  lemma CountsOf(h: seq<Event>, e: Event, id: Id)
    ensures Count(h + [e], Claims(id)) == Count(h, Claims(id)) + if Counts(e, Claims(id)) then 1 else 0
    ensures Count(h + [e], Reclaims(id)) == Count(h, Reclaims(id)) + if Counts(e, Reclaims(id)) then 1 else 0
    ensures Count(h + [e], Retries(id)) == Count(h, Retries(id)) + if Counts(e, Retries(id)) then 1 else 0
    ensures Count(h + [e], Deferrals(id)) == Count(h, Deferrals(id)) + if Counts(e, Deferrals(id)) then 1 else 0
  {
    CountAppend(h, e, Claims(id));
    CountAppend(h, e, Reclaims(id));
    CountAppend(h, e, Retries(id));
    CountAppend(h, e, Deferrals(id));
  }

  /** 1 when the latest attempt is running or settled for good, 0 when none is. */
  function Open(status: Status): nat {
    if status.Pending? || status.RetryableFailed? then 0 else 1
  }

  /** Every attempt of a row is a recorded retry, a deferral, a lease that was lost, or the latest one. */
  predicate Balanced(cfg: Config, row: Row, id: Id, h: seq<Event>) {
    && row.attempts == Count(h, Claims(id))
    && row.attempts == Count(h, Retries(id)) + Count(h, Deferrals(id)) + Count(h, Reclaims(id)) + Open(row.status)
    && Count(h, Retries(id)) <= Max(cfg.maxAttempts - 1, 0)
    && (row.status.Processing? <==> row.startedAt.Some?)
    && (row.status.Delivered? ==> row.deliveredAt.Some? && row.providerId.Some?)
  }

  predicate AllBalanced(cfg: Config, rows: Rows, h: seq<Event>) {
    forall id {:trigger Balanced(cfg, rows[id], id, h)} | id in rows :: Balanced(cfg, rows[id], id, h)
  }

  predicate NoEventsOutside(rows: Rows, h: seq<Event>) {
    forall e | e in h :: e.id in rows
  }

  function DeliveredIds(rows: Rows): set<Id> {
    set id | id in rows && rows[id].status.Delivered?
  }

  ghost predicate Books(cfg: Config, rows: Rows, h: seq<Event>) {
    && NoEventsOutside(rows, h)
    && AllBalanced(cfg, rows, h)
    && |DeliveredIds(rows)| == Count(h, Deliveries)
  }

  /** Each run's counter is the number of its acknowledged deliveries. */
  ghost predicate RunBooks(runs: seq<Run>, h: seq<Event>) {
    && (forall e | e in h :: e.run < |runs|)
    && (forall r | 0 <= r < |runs| :: runs[r].delivered == Count(h, Increments(r)))
  }

  ghost predicate Ledger(cfg: Config, s: State) {
    Books(cfg, s.rows, s.history) && RunBooks(s.runs, s.history)
  }

  lemma {:induction false} CountOutside(rows: Rows, h: seq<Event>, id: Id)
    requires NoEventsOutside(rows, h) && id !in rows
    ensures Count(h, Claims(id)) == Count(h, Retries(id)) == 0
    ensures Count(h, Deferrals(id)) == Count(h, Reclaims(id)) == 0
    decreases |h|
  {
    if h != [] {
      assert h[|h| - 1] in h;
      CountOutside(rows, h[..|h| - 1], id);
    }
  }

  /** Events of no run yet, or of none that delivers, leave the counters in balance. */
  lemma {:induction false} NoIncrements(h: seq<Event>, runs: nat, r: nat)
    requires runs <= r && forall e | e in h :: e.run < runs || e.Claimed?
    ensures Count(h, Increments(r)) == 0
    decreases |h|
  {
    if h != [] {
      assert h[|h| - 1] in h;
      NoIncrements(h[..|h| - 1], runs, r);
    }
  }

  // ----- finishing

  lemma OtherBalanced(cfg: Config, row: Row, id: Id, h: seq<Event>, e: Event)
    requires Balanced(cfg, row, id, h) && e.id != id
    ensures Balanced(cfg, row, id, h + [e])
  {
    CountsOf(h, e, id);
  }

  lemma SettledBalanced(cfg: Config, row: Row, id: Id, h: seq<Event>, e: Event, verdict: Verdict, now: Time)
    requires Balanced(cfg, row, id, h) && row.status.Processing?
    requires e.Finished? && e.id == id && e.outcome == OutcomeOf(verdict)
    requires verdict.Retry? ==> row.attempts < cfg.maxAttempts
    ensures Balanced(cfg, SettledRow(row, verdict, row.attempts, now), id, h + [e])
  {
    CountsOf(h, e, id);
  }

  lemma ClaimedBalanced(cfg: Config, row: Row, id: Id, h: seq<Event>, e: Event, now: Time)
    requires Balanced(cfg, row, id, h) && Claimable(row, now, cfg.lease)
    requires e.Claimed? && e.id == id && e.reclaimed == row.status.Processing?
    ensures Balanced(cfg, ClaimedRow(row, now), id, h + [e])
  {
    CountsOf(h, e, id);
  }

  lemma DeliveredAfter(rows: Rows, id: Id, row: Row)
    requires id in rows && !rows[id].status.Delivered?
    ensures |DeliveredIds(rows[id := row])| == |DeliveredIds(rows)| + if row.status.Delivered? then 1 else 0
  {
    assert id !in DeliveredIds(rows);
    assert DeliveredIds(rows[id := row]) == DeliveredIds(rows) + if row.status.Delivered? then {id} else {};
  }

  lemma OneRowBooks(cfg: Config, rows: Rows, h: seq<Event>, id: Id, row: Row, e: Event)
    requires Books(cfg, rows, h) && id in rows && e.id == id && !rows[id].status.Delivered?
    requires Balanced(cfg, row, id, h + [e]) && (row.status.Delivered? <==> Counts(e, Deliveries))
    ensures Books(cfg, rows[id := row], h + [e])
  {
    CountAppend(h, e, Deliveries);
    DeliveredAfter(rows, id, row);
    OneRowBalanced(cfg, rows, h, id, row, e);
  }

  lemma OneRowBalanced(cfg: Config, rows: Rows, h: seq<Event>, id: Id, row: Row, e: Event)
    requires AllBalanced(cfg, rows, h) && NoEventsOutside(rows, h) && id in rows
    requires e.id == id && Balanced(cfg, row, id, h + [e])
    ensures AllBalanced(cfg, rows[id := row], h + [e]) && NoEventsOutside(rows[id := row], h + [e])
  {
    forall i | i in rows && i != id ensures Balanced(cfg, rows[i], i, h + [e]) {
      OtherBalanced(cfg, rows[i], i, h, e);
    }
  }

  lemma FinishBooks(cfg: Config, s: State, r: nat, item: Item, verdict: Verdict, now: Time, acked: bool)
    requires Books(cfg, s.rows, s.history)
    requires verdict.Retry? ==> item.token < cfg.maxAttempts
    ensures var t := Finish(s, r, item, verdict, now, acked);
            Books(cfg, t.rows, t.history) && t.runs == s.runs
  {
    if Holds(s.rows, item.id, item.token) {
      var e := Finished(r, item.id, item.token, OutcomeOf(verdict), acked);
      SettledBalanced(cfg, s.rows[item.id], item.id, s.history, e, verdict, now);
      OneRowBooks(cfg, s.rows, s.history, item.id, SettledRow(s.rows[item.id], verdict, item.token, now), e);
    }
  }

  /** A finish by run r counts for r alone. */
  lemma FinishCounts(s: State, r: nat, item: Item, verdict: Verdict, now: Time, acked: bool, q: nat)
    ensures var t := Finish(s, r, item, verdict, now, acked);
            Count(t.history, Increments(q)) == Count(s.history, Increments(q)) +
              if q == r && verdict.Deliver? && Holds(s.rows, item.id, item.token) && acked then 1 else 0
  {
    if Holds(s.rows, item.id, item.token) {
      OneFinishCounts(s.history, r, item, OutcomeOf(verdict), acked, q);
    }
  }

  lemma OneFinishCounts(h: seq<Event>, r: nat, item: Item, outcome: Outcome, acked: bool, q: nat)
    ensures Count(h + [Finished(r, item.id, item.token, outcome, acked)], Increments(q)) ==
            Count(h, Increments(q)) + if q == r && outcome.WasDelivered? && acked then 1 else 0
  {
    CountAppend(h, Finished(r, item.id, item.token, outcome, acked), Increments(q));
  }

  lemma FinishRunBooks(s: State, r: nat, verdict: Verdict, commit: Commit, onError: Run)
    requires RunBooks(s.runs, s.history) && Busy(s, r) && onError.delivered == s.runs[r].delivered
    ensures var t := FinishRun(s, r, verdict, commit, onError); RunBooks(t.runs, t.history)
  {
    var run := s.runs[r];
    var t := FinishRun(s, r, verdict, commit, onError);
    forall q | 0 <= q < |t.runs| ensures t.runs[q].delivered == Count(t.history, Increments(q)) {
      FinishCounts(s, r, run.queue[0], verdict, run.now, commit.Acked?, q);
    }
  }

  lemma FinishRunLedger(cfg: Config, s: State, r: nat, verdict: Verdict, commit: Commit, onError: Run)
    requires Ledger(cfg, s) && Busy(s, r)
    requires verdict.Retry? ==> s.runs[r].queue[0].token < cfg.maxAttempts
    requires onError.delivered == s.runs[r].delivered
    ensures Ledger(cfg, FinishRun(s, r, verdict, commit, onError))
  {
    var run := s.runs[r];
    FinishBooks(cfg, s, r, run.queue[0], verdict, run.now, commit.Acked?);
    FinishRunBooks(s, r, verdict, commit, onError);
  }

  // ----- claiming

  lemma ClaimOneBooks(cfg: Config, s: State, r: nat, now: Time, id: Id)
    requires Books(cfg, s.rows, s.history)
    requires id in s.rows && Claimable(s.rows[id], now, cfg.lease)
    ensures var t := ClaimOne(s, r, now, id);
            Books(cfg, t.rows, t.history)
  {
    var e := Claimed(r, id, s.rows[id].attempts + 1, s.rows[id].status.Processing?);
    var row := s.rows[id];
    assert Balanced(cfg, row, id, s.history);
    ClaimedBalanced(cfg, row, id, s.history, e, now);
    assert !row.status.Delivered?;
    assert !Counts(e, Deliveries);
    var row' := ClaimedRow(row, now);
    assert !row'.status.Delivered?;
    OneRowBooks(cfg, s.rows, s.history, id, row', e);
    var t := ClaimOne(s, r, now, id);
    assert t.rows == s.rows[id := row'];
    assert t.history == s.history + [e];
  }

  lemma {:induction false} ClaimAllBooks(cfg: Config, s: State, r: nat, now: Time, ids: seq<Id>)
    requires Books(cfg, s.rows, s.history)
    requires Distinct(ids) && forall id | id in ids :: id in s.rows && Claimable(s.rows[id], now, cfg.lease)
    ensures var t := ClaimAll(s, r, now, ids); Books(cfg, t.rows, t.history) && t.runs == s.runs
    decreases |ids|
  {
    if ids != [] {
      ClaimOneBooks(cfg, s, r, now, ids[0]);
      assert ids[0] !in ids[1..];
      ClaimAllBooks(cfg, ClaimOne(s, r, now, ids[0]), r, now, ids[1..]);
    }
  }

  /** Claims are recorded for the run that makes them, and count for no run's deliveries. */
  lemma {:induction false} ClaimAllCounts(s: State, r: nat, now: Time, ids: seq<Id>, q: nat)
    requires forall id | id in ids :: id in s.rows
    ensures var t := ClaimAll(s, r, now, ids);
            && t.runs == s.runs && Count(t.history, Increments(q)) == Count(s.history, Increments(q))
            && (forall e | e in t.history :: e in s.history || (e.Claimed? && e.run == r))
    decreases |ids|
  {
    if ids != [] {
      var c := ClaimOne(s, r, now, ids[0]);
      CountAppend(s.history, c.history[|s.history|], Increments(q));
      ClaimAllCounts(c, r, now, ids[1..], q);
    }
  }

  lemma ClaimLedger(cfg: Config, s: State, now: Time, ids: seq<Id>, commit: Commit)
    requires Ledger(cfg, s) && Enabled(cfg, s, Claim(now, ids, commit))
    ensures Ledger(cfg, Apply(cfg, s, Claim(now, ids, commit)))
  {
    var n := |s.runs|;
    ClaimAllBooks(cfg, s, n, now, ids);
    var t := Apply(cfg, s, Claim(now, ids, commit));
    forall q | 0 <= q < |t.runs| ensures t.runs[q].delivered == Count(t.history, Increments(q)) {
      ClaimAllCounts(s, n, now, ids, q);
      if q == n {
        NoIncrements(s.history, n, n);
      }
    }
    ClaimAllCounts(s, n, now, ids, n);
  }

  // ----- everything else

  lemma EnqueueLedger(cfg: Config, s: State, id: Id, row: Row)
    requires Ledger(cfg, s) && id !in s.rows && Fresh(row)
    ensures Ledger(cfg, s.(rows := s.rows[id := row]))
  {
    var t := s.(rows := s.rows[id := row]);
    CountOutside(s.rows, s.history, id);
    forall i | i in t.rows ensures Balanced(cfg, t.rows[i], i, t.history) {
      assert i in s.rows ==> Balanced(cfg, s.rows[i], i, s.history);
    }
    assert DeliveredIds(t.rows) == DeliveredIds(s.rows);
  }

  lemma StepLedger(cfg: Config, s: State, a: Action)
    requires Ledger(cfg, s)
    ensures Ledger(cfg, Apply(cfg, s, a))
  {
    if Enabled(cfg, s, a) {
      if a.Enqueue? {
        EnqueueLedger(cfg, s, a.id, a.row);
      } else if a.Claim? {
        ClaimLedger(cfg, s, a.now, a.ids, a.commit);
      } else if IsFinish(a) {
        FinishRunLedger(cfg, s, a.run, VerdictOf(cfg, s.runs[a.run], a), a.commit, OnError(s.runs[a.run], a));
      } else {
        WorkerMoves(cfg, s, a);
      }
    }
  }

  lemma {:induction false} ReachableLedger(cfg: Config, actions: seq<Action>)
    ensures Ledger(cfg, Exec(cfg, INIT, actions))
    decreases |actions|
  {
    if actions == [] {
      assert DeliveredIds(INIT.rows) == {};
    } else {
      ReachableLedger(cfg, actions[..|actions| - 1]);
      StepLedger(cfg, Exec(cfg, INIT, actions[..|actions| - 1]), actions[|actions| - 1]);
    }
  }
}
