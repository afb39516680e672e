/** Exactly when a token is held, and how long a lease lasts, read off the history of every interleaving. */
module EmailHolding {
  import opened Prelude
  import opened EmailTables
  import opened EmailMachine
  import opened EmailFencing

  /** The clock each run works under; it never changes. */
  function Clocks(runs: seq<Run>): seq<Time> {
    seq(|runs|, r requires 0 <= r < |runs| => runs[r].now)
  }

  /** The row's latest token was handed out by this claim, and its lease runs from that run's clock. */
  predicate LatestClaim(e: Event, id: Id, row: Row, clocks: seq<Time>) {
    && e.Claimed? && e.id == id && e.token == row.attempts && e.run < |clocks|
    && (row.status.Processing? ==> row.startedAt == Some(clocks[e.run]))
  }

  ghost predicate HasClaim(id: Id, row: Row, clocks: seq<Time>, h: seq<Event>) {
    exists e | e in h :: LatestClaim(e, id, row, clocks)
  }

  ghost predicate HasFinish(id: Id, token: nat, h: seq<Event>) {
    exists e | e in h :: e.Finished? && e.id == id && e.token == token
  }

  /** Every attempt has its claim on record, and its finish once it is no longer under way. */
  ghost predicate RowTraced(id: Id, row: Row, clocks: seq<Time>, h: seq<Event>) {
    && (row.status.Processing? ==> row.attempts > 0)
    && (row.attempts > 0 ==> HasClaim(id, row, clocks, h))
    && (row.attempts > 0 && !row.status.Processing? ==> HasFinish(id, row.attempts, h))
  }

  /** f is the claim before e, and e's clock shows at least a lease more. */
  predicate LeaseOver(cfg: Config, f: Event, e: Event, clocks: seq<Time>) {
    && f.Claimed? && f.id == e.id && f.token + 1 == e.token
    && f.run < |clocks| && e.run < |clocks| && clocks[e.run] >= clocks[f.run] + cfg.lease
  }

  ghost predicate Waited(cfg: Config, e: Event, clocks: seq<Time>, h: seq<Event>) {
    e.Claimed? && e.reclaimed ==> exists f | f in h :: LeaseOver(cfg, f, e, clocks)
  }

  ghost predicate Traced(cfg: Config, rows: Rows, clocks: seq<Time>, h: seq<Event>) {
    && (forall id {:trigger RowTraced(id, rows[id], clocks, h)} | id in rows :: RowTraced(id, rows[id], clocks, h))
    && (forall e | e in h :: Waited(cfg, e, clocks, h))
  }

  // ----- steps

  lemma RowStaysTraced(id: Id, row: Row, clocks: seq<Time>, h: seq<Event>, clocks': seq<Time>, h': seq<Event>)
    requires RowTraced(id, row, clocks, h) && clocks <= clocks' && h <= h'
    ensures RowTraced(id, row, clocks', h')
  {
    assert forall e | e in h :: e in h' by {
      assert h == h'[..|h|];
    }
    if row.attempts > 0 {
      var e :| e in h && LatestClaim(e, id, row, clocks);
      assert LatestClaim(e, id, row, clocks');
    }
  }

  lemma StaysWaited(cfg: Config, e: Event, clocks: seq<Time>, h: seq<Event>, clocks': seq<Time>, h': seq<Event>)
    requires Waited(cfg, e, clocks, h) && clocks <= clocks' && h <= h'
    ensures Waited(cfg, e, clocks', h')
  {
    if e.Claimed? && e.reclaimed {
      var f :| f in h && LeaseOver(cfg, f, e, clocks);
      assert LeaseOver(cfg, f, e, clocks') && f in h'[..|h|];
    }
  }

  lemma StaysTraced(cfg: Config, rows: Rows, clocks: seq<Time>, h: seq<Event>, clocks': seq<Time>)
    requires Traced(cfg, rows, clocks, h) && clocks <= clocks'
    ensures Traced(cfg, rows, clocks', h)
  {
    forall id | id in rows ensures RowTraced(id, rows[id], clocks', h) {
      RowStaysTraced(id, rows[id], clocks, h, clocks', h);
    }
    forall e | e in h ensures Waited(cfg, e, clocks', h) {
      StaysWaited(cfg, e, clocks, h, clocks', h);
    }
  }

  /** One row changes, with one event on record. */
  lemma OneRowTraced(cfg: Config, rows: Rows, clocks: seq<Time>, h: seq<Event>, id: Id, row: Row, e: Event)
    requires Traced(cfg, rows, clocks, h) && RowTraced(id, row, clocks, h + [e]) && Waited(cfg, e, clocks, h + [e])
    ensures Traced(cfg, rows[id := row], clocks, h + [e])
  {
    var rows' := rows[id := row];
    forall i | i in rows' ensures RowTraced(i, rows'[i], clocks, h + [e]) {
      if i != id {
        RowStaysTraced(i, rows[i], clocks, h, clocks, h + [e]);
      }
    }
    forall d | d in h + [e] ensures Waited(cfg, d, clocks, h + [e]) {
      if d in h {
        StaysWaited(cfg, d, clocks, h, clocks, h + [e]);
      }
    }
  }

  lemma ClaimOneTraced(cfg: Config, s: State, r: nat, now: Time, id: Id, clocks: seq<Time>)
    requires Traced(cfg, s.rows, clocks, s.history) && r < |clocks| && clocks[r] == now
    requires id in s.rows && Claimable(s.rows[id], now, cfg.lease)
    ensures var c := ClaimOne(s, r, now, id); Traced(cfg, c.rows, clocks, c.history)
  {
    var row := s.rows[id];
    var e := Claimed(r, id, row.attempts + 1, row.status.Processing?);
    var h := s.history + [e];
    assert RowTraced(id, row, clocks, s.history);
    assert h[|s.history|] == e && LatestClaim(e, id, ClaimedRow(row, now), clocks);
    if row.status.Processing? {
      var f :| f in s.history && LatestClaim(f, id, row, clocks);
      assert f in h && LeaseOver(cfg, f, e, clocks);
    }
    OneRowTraced(cfg, s.rows, clocks, s.history, id, ClaimedRow(row, now), e);
  }

  lemma {:induction false} ClaimAllTraced(cfg: Config, s: State, r: nat, now: Time, ids: seq<Id>, clocks: seq<Time>)
    requires Traced(cfg, s.rows, clocks, s.history) && r < |clocks| && clocks[r] == now
    requires Distinct(ids) && forall id | id in ids :: id in s.rows && Claimable(s.rows[id], now, cfg.lease)
    ensures var c := ClaimAll(s, r, now, ids); Traced(cfg, c.rows, clocks, c.history) && c.runs == s.runs
    decreases |ids|
  {
    if ids != [] {
      ClaimOneTraced(cfg, s, r, now, ids[0], clocks);
      assert ids[0] !in ids[1..];
      ClaimAllTraced(cfg, ClaimOne(s, r, now, ids[0]), r, now, ids[1..], clocks);
    }
  }

  lemma FinishTraced(cfg: Config, s: State, r: nat, item: Item, verdict: Verdict, now: Time, acked: bool, clocks: seq<Time>)
    requires Traced(cfg, s.rows, clocks, s.history)
    ensures var t := Finish(s, r, item, verdict, now, acked); Traced(cfg, t.rows, clocks, t.history)
  {
    if Holds(s.rows, item.id, item.token) {
      var row := s.rows[item.id];
      var row' := SettledRow(row, verdict, item.token, now);
      var e := Finished(r, item.id, item.token, OutcomeOf(verdict), acked);
      assert RowTraced(item.id, row, clocks, s.history);
      var f :| f in s.history && LatestClaim(f, item.id, row, clocks);
      assert f in s.history + [e] && LatestClaim(f, item.id, row', clocks);
      assert (s.history + [e])[|s.history|] == e;
      OneRowTraced(cfg, s.rows, clocks, s.history, item.id, row', e);
    }
  }

  lemma ClaimTraced(cfg: Config, s: State, now: Time, ids: seq<Id>, commit: Commit)
    requires Traced(cfg, s.rows, Clocks(s.runs), s.history) && Enabled(cfg, s, Claim(now, ids, commit))
    ensures var t := Apply(cfg, s, Claim(now, ids, commit)); Traced(cfg, t.rows, Clocks(t.runs), t.history)
  {
    if !commit.Aborted? {
      var clocks := Clocks(s.runs) + [now];
      StaysTraced(cfg, s.rows, Clocks(s.runs), s.history, clocks);
      ClaimAllTraced(cfg, s, |s.runs|, now, ids, clocks);
      assert Clocks(Apply(cfg, s, Claim(now, ids, commit)).runs) == clocks;
    }
  }

  lemma EnqueueTraced(cfg: Config, rows: Rows, clocks: seq<Time>, h: seq<Event>, id: Id, row: Row)
    requires Traced(cfg, rows, clocks, h) && Fresh(row)
    ensures Traced(cfg, rows[id := row], clocks, h)
  {
    var rows' := rows[id := row];
    forall i | i in rows' ensures RowTraced(i, rows'[i], clocks, h) {
      assert i != id ==> RowTraced(i, rows[i], clocks, h);
    }
  }

  lemma FinishRunTraced(cfg: Config, s: State, r: nat, verdict: Verdict, commit: Commit, onError: Run)
    requires Traced(cfg, s.rows, Clocks(s.runs), s.history) && Busy(s, r) && onError.now == s.runs[r].now
    ensures var t := FinishRun(s, r, verdict, commit, onError); Traced(cfg, t.rows, Clocks(t.runs), t.history)
  {
    var run := s.runs[r];
    FinishTraced(cfg, s, r, run.queue[0], verdict, run.now, commit.Acked?, Clocks(s.runs));
    assert Clocks(FinishRun(s, r, verdict, commit, onError).runs) == Clocks(s.runs);
  }

  lemma StepTraced(cfg: Config, s: State, a: Action)
    requires Traced(cfg, s.rows, Clocks(s.runs), s.history)
    ensures var t := Apply(cfg, s, a); Traced(cfg, t.rows, Clocks(t.runs), t.history)
  {
    if Enabled(cfg, s, a) {
      if a.Claim? {
        ClaimTraced(cfg, s, a.now, a.ids, a.commit);
      } else if a.Enqueue? {
        EnqueueTraced(cfg, s.rows, Clocks(s.runs), s.history, a.id, a.row);
      } else if IsFinish(a) {
        FinishRunTraced(cfg, s, a.run, VerdictOf(cfg, s.runs[a.run], a), a.commit, OnError(s.runs[a.run], a));
      } else {
        WorkerMoves(cfg, s, a);
        assert Clocks(Apply(cfg, s, a).runs) == Clocks(s.runs);
      }
    }
  }

  lemma {:induction false} ReachableTraced(cfg: Config, actions: seq<Action>)
    ensures var s := Exec(cfg, INIT, actions); Traced(cfg, s.rows, Clocks(s.runs), s.history)
    decreases |actions|
  {
    if actions != [] {
      ReachableTraced(cfg, actions[..|actions| - 1]);
      StepTraced(cfg, Exec(cfg, INIT, actions[..|actions| - 1]), actions[|actions| - 1]);
    }
  }

  // ----- theorems

  /** The history has a claim under a later token, or a finish under this one. */
  predicate Superseded(h: seq<Event>, id: Id, token: nat) {
    exists e | e in h :: e.id == id && ((e.Claimed? && e.token > token) || (e.Finished? && e.token == token))
  }

  /** A run holds an item's row exactly until the delivery is claimed again or the token has been settled. */
  lemma HeldUntilSuperseded(cfg: Config, actions: seq<Action>, r: nat, item: Item)
    requires r < |Exec(cfg, INIT, actions).runs| && item in Exec(cfg, INIT, actions).runs[r].queue
    ensures var s := Exec(cfg, INIT, actions);
            Holds(s.rows, item.id, item.token) <==> !Superseded(s.history, item.id, item.token)
  {
    ReachableFenced(cfg, actions);
    ReachableTraced(cfg, actions);
    var s := Exec(cfg, INIT, actions);
    assert OwnsQueue(s.runs[r], r, s.history) && Handed(s.history, r, item.id, item.token);
    HeldOrSuperseded(cfg, s, r, item.id, item.token);
  }

  lemma HeldOrSuperseded(cfg: Config, s: State, r: nat, id: Id, token: nat)
    requires AllSound(s.rows, s.history) && Traced(cfg, s.rows, Clocks(s.runs), s.history)
    requires Handed(s.history, r, id, token)
    ensures Holds(s.rows, id, token) <==> !Superseded(s.history, id, token)
  {
    var claim :| claim in s.history && claim.Claimed? && claim.id == id && claim.token == token;
    assert Sound(claim, s.rows, s.history);
    if Holds(s.rows, id, token) {
      forall e | e in s.history ensures Sound(e, s.rows, s.history) {
      }
    } else {
      var row := s.rows[id];
      assert RowTraced(id, row, Clocks(s.runs), s.history);
      var e :| e in s.history && LatestClaim(e, id, row, Clocks(s.runs));
    }
  }

  /** A committed finish changes its row exactly when the delivery was neither claimed again nor settled under the token
      before: whoever comes late changes nothing, and whoever does not come late is never ignored. */
  lemma FinishChangesIff(cfg: Config, actions: seq<Action>, a: Action)
    requires IsFinish(a) && !a.commit.Aborted? && Enabled(cfg, Exec(cfg, INIT, actions), a)
    ensures var s := Exec(cfg, INIT, actions); var item := s.runs[a.run].queue[0];
            Apply(cfg, s, a).rows[item.id] != s.rows[item.id] <==> !Superseded(s.history, item.id, item.token)
  {
    var s := Exec(cfg, INIT, actions);
    HeldUntilSuperseded(cfg, actions, a.run, s.runs[a.run].queue[0]);
    FinishChanges(s, a.run, VerdictOf(cfg, s.runs[a.run], a), a.commit, OnError(s.runs[a.run], a));
  }

  lemma FinishChanges(s: State, r: nat, verdict: Verdict, commit: Commit, onError: Run)
    requires Busy(s, r) && !commit.Aborted?
    ensures var item := s.runs[r].queue[0]; var t := FinishRun(s, r, verdict, commit, onError);
            && item.id in t.rows
            && (t.rows[item.id] != s.rows[item.id] <==> Holds(s.rows, item.id, item.token))
  {
  }

  /** A delivery in work is taken over only by a run whose clock is at least a lease past that of the run before. */
  lemma ReclaimWaits(cfg: Config, actions: seq<Action>, j: nat)
    requires j < |Exec(cfg, INIT, actions).history|
    requires var e := Exec(cfg, INIT, actions).history[j]; e.Claimed? && e.reclaimed
    ensures var s := Exec(cfg, INIT, actions); var h := s.history;
            exists i | 0 <= i < j :: LeaseOver(cfg, h[i], h[j], Clocks(s.runs))
  {
    ReachableFenced(cfg, actions);
    ReachableTraced(cfg, actions);
    var s := Exec(cfg, INIT, actions);
    var h := s.history;
    assert Waited(cfg, h[j], Clocks(s.runs), h);
    var f :| f in h && LeaseOver(cfg, f, h[j], Clocks(s.runs));
    var i :| 0 <= i < |h| && h[i] == f;
    assert j < i ==> Precedes(h[j], h[i]);
  }
}
