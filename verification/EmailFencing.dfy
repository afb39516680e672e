/** Fencing: what the history of every interleaving says about tokens. */
module EmailFencing {
  import opened Prelude
  import opened EmailTables
  import opened EmailMachine

  /** The order two events on one delivery must have. */
  predicate Precedes(e: Event, f: Event) {
    e.id == f.id ==> e.token < f.token || (e.token == f.token && e.Claimed? && f.Finished?)
  }

  predicate Ordered(h: seq<Event>) {
    forall i, j | 0 <= i < j < |h| :: Precedes(h[i], h[j])
  }

  /** The token was handed to this run by a claim. */
  predicate Handed(h: seq<Event>, run: nat, id: Id, token: nat) {
    Claimed(run, id, token, true) in h || Claimed(run, id, token, false) in h
  }

  /** An event is never ahead of its row; a finish is by the token's holder and ends the holding. */
  predicate Sound(e: Event, rows: Rows, h: seq<Event>) {
    && e.id in rows && 1 <= e.token <= rows[e.id].attempts
    && (e.Finished? ==> Handed(h, e.run, e.id, e.token) && !Holds(rows, e.id, e.token))
  }

  predicate AllSound(rows: Rows, h: seq<Event>) {
    forall e | e in h :: Sound(e, rows, h)
  }

  /** A run holds only items that were claimed for it. */
  predicate OwnsQueue(run: Run, r: nat, h: seq<Event>) {
    forall item | item in run.queue :: Handed(h, r, item.id, item.token)
  }

  predicate OwnQueues(s: State) {
    forall r | 0 <= r < |s.runs| :: OwnsQueue(s.runs[r], r, s.history)
  }

  predicate Fenced(s: State) {
    Ordered(s.history) && AllSound(s.rows, s.history) && OwnQueues(s)
  }

  // ----- one more event

  lemma AppendOrdered(h: seq<Event>, e: Event)
    requires Ordered(h) && forall d | d in h :: Precedes(d, e)
    ensures Ordered(h + [e])
  {
    var k := h + [e];
    forall i, j | 0 <= i < j < |k| ensures Precedes(k[i], k[j]) {
      assert k[i] in h;
    }
  }

  lemma AppendSound(rows: Rows, h: seq<Event>, rows': Rows, e: Event)
    requires AllSound(rows, h) && Sound(e, rows', h)
    requires forall d | d in h && Sound(d, rows, h) :: Sound(d, rows', h)
    ensures AllSound(rows', h + [e])
  {
    forall d | d in h + [e] ensures Sound(d, rows', h + [e]) {
      assert Sound(d, rows', h);
    }
  }

  lemma FinishOrdered(s: State, r: nat, item: Item, verdict: Verdict, now: Time, acked: bool)
    requires Ordered(s.history) && AllSound(s.rows, s.history) && Handed(s.history, r, item.id, item.token)
    ensures var t := Finish(s, r, item, verdict, now, acked); Ordered(t.history) && AllSound(t.rows, t.history)
  {
    if Holds(s.rows, item.id, item.token) {
      var e := Finished(r, item.id, item.token, OutcomeOf(verdict), acked);
      forall d | d in s.history ensures Precedes(d, e) {
        assert Sound(d, s.rows, s.history);
      }
      AppendOrdered(s.history, e);
      AppendSound(s.rows, s.history, Settle(s.rows, item.id, item.token, verdict, now), e);
    }
  }

  lemma ClaimOneOrdered(s: State, r: nat, now: Time, id: Id)
    requires Ordered(s.history) && AllSound(s.rows, s.history) && id in s.rows
    ensures var t := ClaimOne(s, r, now, id); Ordered(t.history) && AllSound(t.rows, t.history)
  {
    var e := Claimed(r, id, s.rows[id].attempts + 1, s.rows[id].status.Processing?);
    forall d | d in s.history ensures Precedes(d, e) {
      assert Sound(d, s.rows, s.history);
    }
    AppendOrdered(s.history, e);
    AppendSound(s.rows, s.history, s.rows[id := ClaimedRow(s.rows[id], now)], e);
  }

  lemma {:induction false} ClaimAllOrdered(s: State, r: nat, now: Time, ids: seq<Id>)
    requires Ordered(s.history) && AllSound(s.rows, s.history)
    requires Distinct(ids) && forall id | id in ids :: id in s.rows
    ensures var t := ClaimAll(s, r, now, ids);
            && Ordered(t.history) && AllSound(t.rows, t.history) && s.history <= t.history
            && t.providerIds == s.providerIds && t.messages == s.messages && t.runs == s.runs
            && t.reservations == s.reservations
            && (forall id | id in s.rows :: t.rows[id] == if id in ids then ClaimedRow(s.rows[id], now) else s.rows[id])
            && (forall id | id in ids :: Handed(t.history, r, id, t.rows[id].attempts))
    decreases |ids|
  {
    if ids != [] {
      var c := ClaimOne(s, r, now, ids[0]);
      var t := ClaimAll(s, r, now, ids);
      ClaimOneOrdered(s, r, now, ids[0]);
      ClaimAllOrdered(c, r, now, ids[1..]);
      assert c.history[|s.history|] in t.history;
      assert ids[0] !in ids[1..];
    }
  }

  lemma HandedStays(h: seq<Event>, k: seq<Event>, run: nat, id: Id, token: nat)
    requires h <= k && Handed(h, run, id, token)
    ensures Handed(k, run, id, token)
  {
    assert k[..|h|] == h;
  }

  /** Queues that lose items, in a history that grows, stay owned. */
  lemma QueuesStayOwned(s: State, t: State, r: nat, run: Run)
    requires OwnQueues(s) && s.history <= t.history && r < |s.runs|
    requires t.runs == s.runs[r := run] && forall item | item in run.queue :: item in s.runs[r].queue
    ensures OwnQueues(t)
  {
    forall q | 0 <= q < |t.runs| ensures OwnsQueue(t.runs[q], q, t.history) {
      assert OwnsQueue(s.runs[q], q, s.history);
      forall item | item in t.runs[q].queue ensures Handed(t.history, q, item.id, item.token) {
        HandedStays(s.history, t.history, q, item.id, item.token);
      }
    }
  }

  lemma FinishRunFenced(s: State, r: nat, verdict: Verdict, commit: Commit, onError: Run)
    requires Fenced(s) && Busy(s, r)
    requires forall item | item in onError.queue :: item in s.runs[r].queue
    ensures Fenced(FinishRun(s, r, verdict, commit, onError))
  {
    var item := s.runs[r].queue[0];
    var t := FinishRun(s, r, verdict, commit, onError);
    assert OwnsQueue(s.runs[r], r, s.history) && item in s.runs[r].queue;
    FinishOrdered(s, r, item, verdict, s.runs[r].now, commit.Acked?);
    QueuesStayOwned(s, t, r, t.runs[r]);
  }

  lemma ClaimFenced(cfg: Config, s: State, now: Time, ids: seq<Id>, commit: Commit)
    requires Fenced(s) && Enabled(cfg, s, Claim(now, ids, commit))
    ensures Fenced(Apply(cfg, s, Claim(now, ids, commit)))
  {
    ClaimAllOrdered(s, |s.runs|, now, ids);
    var t := Apply(cfg, s, Claim(now, ids, commit));
    forall r | 0 <= r < |t.runs| ensures OwnsQueue(t.runs[r], r, t.history) {
      if r < |s.runs| {
        assert OwnsQueue(s.runs[r], r, s.history);
        forall item | item in t.runs[r].queue ensures Handed(t.history, r, item.id, item.token) {
          HandedStays(s.history, t.history, r, item.id, item.token);
        }
      }
    }
  }

  lemma StepFenced(cfg: Config, s: State, a: Action)
    requires Fenced(s)
    ensures Fenced(Apply(cfg, s, a))
  {
    if Enabled(cfg, s, a) {
      if a.Claim? {
        ClaimFenced(cfg, s, a.now, a.ids, a.commit);
      } else if IsFinish(a) {
        FinishRunFenced(s, a.run, VerdictOf(cfg, s.runs[a.run], a), a.commit, OnError(s.runs[a.run], a));
      } else if !a.Enqueue? {
        WorkerMoves(cfg, s, a);
        var t := Apply(cfg, s, a);
        QueuesStayOwned(s, t, a.run, t.runs[a.run]);
      }
    }
  }

  lemma {:induction false} ReachableFenced(cfg: Config, actions: seq<Action>)
    ensures Fenced(Exec(cfg, INIT, actions))
    decreases |actions|
  {
    if actions != [] {
      ReachableFenced(cfg, actions[..|actions| - 1]);
      StepFenced(cfg, Exec(cfg, INIT, actions[..|actions| - 1]), actions[|actions| - 1]);
    }
  }
}
