/** What the counters that run_once returns say about the delivered rows. */
module EmailConservation {
  import opened Prelude
  import opened EmailTables
  import opened EmailMachine
  import opened EmailLedger
  import opened EmailSteps
  import opened EmailDayCap

  /** The sum of what the first n calls returned; a call that raised or died returned nothing. */
  function Reported(runs: seq<Run>, n: nat): nat
    requires n <= |runs|
  {
    if n == 0 then 0 else Reported(runs, n - 1) + if Returned(runs[n - 1]) then runs[n - 1].delivered else 0
  }

  function ReportedTotal(runs: seq<Run>): nat {
    Reported(runs, |runs|)
  }

  /** A delivery whose commit was acknowledged to a run that went on to return. */
  predicate IsReported(e: Event, runs: seq<Run>) {
    Counts(e, Deliveries) && e.acked && e.run < |runs| && Returned(runs[e.run])
  }

  function CountReported(h: seq<Event>, runs: seq<Run>): nat {
    if h == [] then 0 else CountReported(h[..|h| - 1], runs) + if IsReported(h[|h| - 1], runs) then 1 else 0
  }

  /** The same sum, with each counter read off the history. */
  function PerRun(h: seq<Event>, runs: seq<Run>, n: nat): nat
    requires n <= |runs|
  {
    if n == 0 then 0 else PerRun(h, runs, n - 1) + if Returned(runs[n - 1]) then Count(h, Increments(n - 1)) else 0
  }

  lemma {:induction false} ReportedIsPerRun(runs: seq<Run>, h: seq<Event>, n: nat)
    requires RunBooks(runs, h) && n <= |runs|
    ensures Reported(runs, n) == PerRun(h, runs, n)
  {
    if n > 0 {
      ReportedIsPerRun(runs, h, n - 1);
    }
  }

  lemma {:induction false} PerRunAppend(h: seq<Event>, e: Event, runs: seq<Run>, n: nat)
    requires n <= |runs|
    ensures PerRun(h + [e], runs, n) == PerRun(h, runs, n) + if IsReported(e, runs) && e.run < n then 1 else 0
  {
    if n > 0 {
      PerRunAppend(h, e, runs, n - 1);
      CountAppend(h, e, Increments(n - 1));
    }
  }

  lemma {:induction false} PerRunOfNothing(runs: seq<Run>, n: nat)
    requires n <= |runs|
    ensures PerRun([], runs, n) == 0
  {
    if n > 0 {
      PerRunOfNothing(runs, n - 1);
    }
  }

  lemma {:induction false} PerRunIsCount(h: seq<Event>, runs: seq<Run>)
    ensures PerRun(h, runs, |runs|) == CountReported(h, runs)
    decreases |h|
  {
    if h == [] {
      PerRunOfNothing(runs, |runs|);
    } else {
      var n := |h| - 1;
      PerRunIsCount(h[..n], runs);
      PerRunAppend(h[..n], h[n], runs, |runs|);
      assert h == h[..n] + [h[n]];
    }
  }

  lemma {:induction false} ReportedVersusDeliveries(h: seq<Event>, runs: seq<Run>)
    ensures CountReported(h, runs) <= Count(h, Deliveries)
    ensures CountReported(h, runs) == Count(h, Deliveries) <==>
              forall e | e in h && Counts(e, Deliveries) :: IsReported(e, runs)
    decreases |h|
  {
    if h != [] {
      var n := |h| - 1;
      ReportedVersusDeliveries(h[..n], runs);
      assert h == h[..n] + [h[n]];
      assert forall e :: e in h <==> e in h[..n] || e == h[n];
    }
  }

  /** The counters that calls of run_once returned never add up to more than the delivered rows, and they add up to
      exactly these if and only if the commit of every delivery was acknowledged to a call that returned. */
  lemma Conservation(cfg: Config, actions: seq<Action>)
    ensures var s := Exec(cfg, INIT, actions);
            && ReportedTotal(s.runs) <= |DeliveredIds(s.rows)|
            && (ReportedTotal(s.runs) == |DeliveredIds(s.rows)| <==>
                  forall e | e in s.history && e.Finished? && e.outcome.WasDelivered? ::
                    e.acked && e.run < |s.runs| && Returned(s.runs[e.run]))
  {
    ReachableLedger(cfg, actions);
    var s := Exec(cfg, INIT, actions);
    ReportedIsPerRun(s.runs, s.history, |s.runs|);
    PerRunIsCount(s.history, s.runs);
    ReportedVersusDeliveries(s.history, s.runs);
  }

  /** A shortfall can happen: the commit that marks a row as delivered goes through, its acknowledgement is lost, the
      failure recorded next meets a settled row, and the call returns zero. */
  lemma LostAcknowledgement(cfg: Config, user: User) returns (actions: seq<Action>)
    requires cfg.quota >= 1
    ensures var s := Exec(cfg, INIT, actions);
            && (forall r | 0 <= r < |s.runs| :: Returned(s.runs[r]))
            && ReportedTotal(s.runs) == 0 && |DeliveredIds(s.rows)| == 1
  {
    assert Holders(INIT.reservations, user, Date(0)) == {};
    MailIsOrdinary(user);
    var reserved, t := ReserveNew(cfg, INIT, OrdinaryMail(user), 0, 1);
    var sent := SendLast(cfg, INIT, t, reserved, user, 1, 0);
    var u := Exec(cfg, INIT, sent);
    ExecSnoc(cfg, INIT, sent, Complete(0, AckLost));
    ExecSnoc(cfg, INIT, sent + [Complete(0, AckLost)], Fail(0, Acked));
    CompletedUnseen(cfg, u, Waiting(OrdinaryMail(user)));
    actions := sent + [Complete(0, AckLost)] + [Fail(0, Acked)];
  }

  lemma CompletedUnseen(cfg: Config, s: State, row: Row)
    requires s.rows == map[1 := ClaimedRow(row, 0)] && row.attempts == 0
    requires s.runs == [Run(0, [Item(1, 1)], Completing(""), 0, false)]
    ensures var t := Apply(cfg, Apply(cfg, s, Complete(0, AckLost)), Fail(0, Acked));
            && t.runs == [Run(0, [], Begin, 0, false)] && ReportedTotal(t.runs) == 0
            && t.rows.Keys == {1} && t.rows[1].status.Delivered? && |DeliveredIds(t.rows)| == 1
  {
    var u := Apply(cfg, s, Complete(0, AckLost));
    assert u.runs == [Run(0, [Item(1, 1)], DATABASE_ERROR, 0, false)] && u.rows[1].status.Delivered?;
    var t := Apply(cfg, u, Fail(0, Acked));
    UnheldFinish(u, 0, VerdictOf(cfg, u.runs[0], Fail(0, Acked)), Acked, OnError(u.runs[0], Fail(0, Acked)));
    assert [Item(1, 1)][1..] == [];
    assert t.runs == [Advance(u.runs[0], 0)];
    assert t.rows == u.rows && t.runs == [Run(0, [], Begin, 0, false)];
    assert DeliveredIds(t.rows) == {1};
    assert Reported(t.runs, 0) == 0;
  }
}
