/** For every quota, runs in which one recipient gets more mail on one day than it. */
module EmailCarryOver {
  import opened Prelude
  import opened EmailTables
  import opened EmailMachine
  import opened EmailLog
  import opened EmailSteps
  import opened EmailTheorems
  import opened EmailDayCap

  /** The first delivery reserves its slot of the first day, and its worker crashes. */
  const STRANDED: seq<Action> := [Claim(0, [1], Acked), Check(0, true), Reserve(0, Acked), Crash(0)]

  function Stranding(user: User): seq<Action> {
    [Enqueue(1, Waiting(OrdinaryMail(user)))] + STRANDED
  }

  /** Where that leaves things: one row in work for nobody, one reservation, nothing sent. */
  lemma Stranded(cfg: Config, user: User)
    requires cfg.quota >= 1
    ensures var s := Exec(cfg, INIT, Stranding(user)); var row := Waiting(OrdinaryMail(user));
            && s.rows == map[1 := ClaimedRow(row, 0)] && s.reservations == map[1 := Reservation(user, 0, 1)]
            && s.messages == [] && s.runs == [Stopped(Run(0, [Item(1, 1)], Sending, 0, false))]
  {
    var row := Waiting(OrdinaryMail(user));
    MailIsOrdinary(user);
    var a := [Enqueue(1, row)];
    assert Exec(cfg, INIT, []) == INIT;
    ExecSnoc(cfg, INIT, [], Enqueue(1, row));
    assert [] + [Enqueue(1, row)] == a;
    var s1 := Exec(cfg, INIT, a);
    assert s1 == INIT.(rows := map[1 := row]);
    ExecSnoc(cfg, INIT, a, Claim(0, [1], Acked));
    ClaimSingle(cfg, s1, 0, 1);
    var b := a + [Claim(0, [1], Acked)];
    var s2 := Exec(cfg, INIT, b);
    ExecSnoc(cfg, INIT, b, Check(0, true));
    CheckStep(cfg, s2, 0);
    var c := b + [Check(0, true)];
    var s3 := Exec(cfg, INIT, c);
    ReserveAndCrash(cfg, s3, user);
    ExecSnoc(cfg, INIT, c, Reserve(0, Acked));
    ExecSnoc(cfg, INIT, c + [Reserve(0, Acked)], Crash(0));
    assert Stranding(user) == c + [Reserve(0, Acked)] + [Crash(0)];
  }

  lemma ReserveAndCrash(cfg: Config, s: State, user: User)
    requires cfg.quota >= 1 && s.rows.Keys == {1} && s.rows[1].mail == OrdinaryMail(user) && s.reservations == map[]
    requires s.runs == [Run(0, [Item(1, 1)], Reserving, 0, false)]
    ensures Apply(cfg, Apply(cfg, s, Reserve(0, Acked)), Crash(0)) ==
            s.(reservations := map[1 := Reservation(user, 0, 1)], runs := [Stopped(Run(0, [Item(1, 1)], Sending, 0, false))])
  {
    assert Holders(s.reservations, user, 0) == {};
    ReserveNext(cfg, s, 0);
  }

  /** Whatever the quota, a run sends one message more on some day than it: what was reserved the day before goes out
      beside a full quota of the day's own. */
  lemma QuotaDoesNotCapTheDay(cfg: Config, user: User) returns (actions: seq<Action>, date: int)
    requires cfg.quota >= 1
    ensures |SentOn(Exec(cfg, INIT, actions), user, date)| == cfg.quota + 1
  {
    var before := Stranding(user);
    Stranded(cfg, user);
    ReachableHonest(cfg, before);
    MailIsOrdinary(user);
    date := Max(Date(cfg.lease) + 1, 1);
    var s := Exec(cfg, INIT, before);
    assert LastInstant(date) >= cfg.lease;
    assert Holders(s.reservations, user, date) == {} && SentOn(s, user, date) == {};
    assert WaitsOver(cfg, s, user, date, 1);
    var rest := QuotaAndOneMore(cfg, s, user, date, 1);
    ExecAppend(cfg, INIT, before, rest);
    actions := before + rest;
  }
}
