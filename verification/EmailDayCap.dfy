/** When the daily quota caps what is sent on a day, and when it does not. */
module EmailDayCap {
  import opened Prelude
  import opened EmailTables
  import opened EmailMachine
  import opened EmailQuota
  import opened EmailLog
  import opened EmailSteps
  import opened EmailTheorems

  // ----- a day from its start

  /** The last instant of a date; what can be claimed at some time of the date can be claimed then. */
  function LastInstant(date: int): Time {
    (date + 1) * DAY - 1
  }

  /** The step is taken by a clock that shows this date; new deliveries come without a clock. */
  predicate ShowsDate(s: State, a: Action, date: int) {
    match a
    case Enqueue(_, _) => true
    case Claim(now, _, _) => Date(now) == date
    case _ => a.run < |s.runs| ==> Date(s.runs[a.run].now) == date
  }

  predicate AllShow(cfg: Config, s: State, actions: seq<Action>, date: int) {
    if actions == [] then true
    else
      var n := |actions| - 1;
      AllShow(cfg, s, actions[..n], date) && ShowsDate(Exec(cfg, s, actions[..n]), actions[n], date)
  }

  /** The date has not begun for this user: nothing sent, nothing reserved, and no worker under way under its clock. */
  predicate Untouched(s: State, user: User, date: int) {
    && SentOn(s, user, date) == {} && Holders(s.reservations, user, date) == {}
    && forall r | 0 <= r < |s.runs| :: s.runs[r].queue != [] ==> Date(s.runs[r].now) != date
  }

  /** Mail that was reserved for another date, has not been sent, and can come due on this one. */
  predicate WaitsOver(cfg: Config, s: State, user: User, date: int, id: Id) {
    && id in s.rows && id in s.reservations && s.rows[id].mail.recipient == user && Renderable(s.rows[id].mail)
    && Claimable(s.rows[id], LastInstant(date), cfg.lease)
    && forall m | m in s.messages :: m.delivery != id
  }

  /** However the date goes, with all its clocks showing it, the user gets no more mail than the quota allows. */
  ghost predicate CapHolds(cfg: Config, s: State, user: User, date: int) {
    forall actions | AllShow(cfg, s, actions, date) ::
      |SentOn(Exec(cfg, s, actions), user, date)| <= Max(cfg.quota, 0)
  }

  // ----- every date starts untouched

  /** No clock has shown the date yet. */
  ghost predicate Unbegun(s: State, date: int) {
    && (forall r | 0 <= r < |s.runs| :: Date(s.runs[r].now) != date)
    && (forall m | m in s.messages :: m.date != date)
    && (forall id | id in s.reservations :: s.reservations[id].date != date)
  }

  lemma {:induction false} ClaimsTouchRows(s: State, r: nat, now: Time, ids: seq<Id>)
    requires forall i | i in ids :: i in s.rows
    ensures var c := ClaimAll(s, r, now, ids);
            c.messages == s.messages && c.reservations == s.reservations && c.runs == s.runs
    decreases |ids|
  {
    if ids != [] {
      ClaimsTouchRows(ClaimOne(s, r, now, ids[0]), r, now, ids[1..]);
    }
  }

  /** A run moved on; what it sent or reserved it did under its own clock. */
  lemma RunStaysUnbegun(s: State, t: State, r: nat, date: int)
    requires Unbegun(s, date) && r < |s.runs| && |t.runs| == |s.runs|
    requires t.runs == s.runs[r := t.runs[r]] && t.runs[r].now == s.runs[r].now
    requires forall m | m in t.messages :: m in s.messages || m.date == Date(s.runs[r].now)
    requires forall id | id in t.reservations ::
               (id in s.reservations && t.reservations[id] == s.reservations[id])
               || t.reservations[id].date == Date(s.runs[r].now)
    ensures Unbegun(t, date)
  {
  }

  lemma FinishStaysUnbegun(s: State, r: nat, verdict: Verdict, commit: Commit, onError: Run, date: int)
    requires Unbegun(s, date) && Busy(s, r) && onError.now == s.runs[r].now
    ensures Unbegun(FinishRun(s, r, verdict, commit, onError), date)
  {
    FinishMoves(s, r, verdict, commit, onError);
    RunStaysUnbegun(s, FinishRun(s, r, verdict, commit, onError), r, date);
  }

  lemma ReserveStaysUnbegun(cfg: Config, s: State, r: nat, commit: Commit, date: int)
    requires Unbegun(s, date) && Busy(s, r)
    ensures Unbegun(ReserveStep(cfg, s, r, commit), date)
  {
    RunStaysUnbegun(s, ReserveStep(cfg, s, r, commit), r, date);
  }

  lemma SendStaysUnbegun(s: State, r: nat, reply: Reply, date: int)
    requires Unbegun(s, date) && Busy(s, r)
    ensures Unbegun(SendStep(s, r, reply), date)
  {
    RunStaysUnbegun(s, SendStep(s, r, reply), r, date);
  }

  lemma StaysUnbegun(cfg: Config, s: State, a: Action, date: int)
    requires Unbegun(s, date) && (a.Claim? ==> Date(a.now) != date)
    ensures Unbegun(Apply(cfg, s, a), date)
  {
    if Enabled(cfg, s, a) {
      match a
      case Enqueue(_, _) =>
      case Claim(now, ids, commit) => ClaimsTouchRows(s, |s.runs|, now, ids);
      case Check(r, readOk) => RunStaysUnbegun(s, Apply(cfg, s, a), r, date);
      case Crash(r) => RunStaysUnbegun(s, Apply(cfg, s, a), r, date);
      case Reserve(r, commit) => ReserveStaysUnbegun(cfg, s, r, commit, date);
      case Send(r, reply) => SendStaysUnbegun(s, r, reply, date);
      case _ =>
        FinishStaysUnbegun(s, a.run, VerdictOf(cfg, s.runs[a.run], a), a.commit, OnError(s.runs[a.run], a), date);
    }
  }

  /** Until the first claim under a clock of the date, the date is untouched for every user. */
  lemma {:induction false} UntouchedUntilClaimed(cfg: Config, actions: seq<Action>, user: User, date: int)
    requires forall i | 0 <= i < |actions| :: actions[i].Claim? ==> Date(actions[i].now) != date
    ensures Unbegun(Exec(cfg, INIT, actions), date) && Untouched(Exec(cfg, INIT, actions), user, date)
    decreases |actions|
  {
    if actions != [] {
      var n := |actions| - 1;
      UntouchedUntilClaimed(cfg, actions[..n], user, date);
      StaysUnbegun(cfg, Exec(cfg, INIT, actions[..n]), actions[n], date);
    }
  }

  // ----- what a day cannot change

  /** A row that cannot come due on the date. */
  predicate Asleep(cfg: Config, s: State, date: int, id: Id) {
    id in s.rows && !Claimable(s.rows[id], LastInstant(date), cfg.lease)
  }

  /** From s to t, by clocks of the date only: messages are added, reservations are added for the date, and a row that is
      asleep stays as it is, in nobody's queue under that clock, and unsent. */
  ghost predicate DayPasses(cfg: Config, s: State, t: State, date: int) {
    && s.messages <= t.messages && |s.runs| <= |t.runs|
    && (forall id | id in t.reservations ::
          (id in s.reservations && t.reservations[id] == s.reservations[id]) || t.reservations[id].date == date)
    && (forall id | id in s.rows :: id in t.rows && t.rows[id].mail == s.rows[id].mail)
    && (forall id | Asleep(cfg, s, date, id) :: Sleeps(s, t, date, id))
  }

  ghost predicate Sleeps(s: State, t: State, date: int, id: Id)
    requires id in s.rows
  {
    && id in t.rows && t.rows[id] == s.rows[id]
    && (forall r | 0 <= r < |t.runs| && Date(t.runs[r].now) == date :: NotQueued(t.runs[r], id))
    && (forall m | m in t.messages && m.delivery == id :: m in s.messages)
  }

  predicate NotQueued(run: Run, id: Id) {
    forall item | item in run.queue :: item.id != id
  }

  lemma DayStarts(cfg: Config, s: State, user: User, date: int)
    requires Untouched(s, user, date)
    ensures DayPasses(cfg, s, s, date)
  {
  }

  lemma {:induction false} ClaimsOfTheDay(cfg: Config, s: State, r: nat, now: Time, ids: seq<Id>)
    requires forall i | i in ids :: i in s.rows
    ensures var c := ClaimAll(s, r, now, ids);
            && c.messages == s.messages && c.reservations == s.reservations && c.runs == s.runs
            && (forall id | id in s.rows :: c.rows[id].mail == s.rows[id].mail)
            && (forall id | id in s.rows && id !in ids :: c.rows[id] == s.rows[id])
    decreases |ids|
  {
    if ids != [] {
      ClaimsOfTheDay(cfg, ClaimOne(s, r, now, ids[0]), r, now, ids[1..]);
    }
  }

  /** What comes due by a time of the date has come due by its end. */
  lemma DueByTheEnd(row: Row, now: Time, lease: int)
    requires Claimable(row, now, lease)
    ensures Claimable(row, LastInstant(Date(now)), lease)
  {
    assert now <= LastInstant(Date(now));
  }

  lemma ClaimPasses(cfg: Config, s: State, t: State, date: int, now: Time, ids: seq<Id>, commit: Commit)
    requires DayPasses(cfg, s, t, date) && Date(now) == date && Enabled(cfg, t, Claim(now, ids, commit))
    ensures DayPasses(cfg, s, Apply(cfg, t, Claim(now, ids, commit)), date)
  {
    if !commit.Aborted? {
      var c := ClaimAll(t, |t.runs|, now, ids);
      var u := Apply(cfg, t, Claim(now, ids, commit));
      ClaimsOfTheDay(cfg, t, |t.runs|, now, ids);
      forall id | Asleep(cfg, s, date, id) ensures Sleeps(s, u, date, id) {
        assert Sleeps(s, t, date, id);
        if id in ids {
          DueByTheEnd(t.rows[id], now, cfg.lease);
        }
        assert id !in ids;
        assert NotQueued(u.runs[|t.runs|], id);
      }
    }
  }

  /** A step of a run under a clock of the date whose item is awake. */
  lemma RunPasses(cfg: Config, s: State, t: State, u: State, date: int, r: nat)
    requires DayPasses(cfg, s, t, date) && Busy(t, r) && Date(t.runs[r].now) == date
    requires |u.runs| == |t.runs| && u.runs == t.runs[r := u.runs[r]] && u.runs[r].now == t.runs[r].now
    requires forall item | item in u.runs[r].queue :: item in t.runs[r].queue
    requires u.rows.Keys == t.rows.Keys && u.rows[t.runs[r].queue[0].id].mail == t.rows[t.runs[r].queue[0].id].mail
    requires forall id | id in t.rows && id != t.runs[r].queue[0].id :: u.rows[id] == t.rows[id]
    requires t.messages <= u.messages && forall m | m in u.messages :: m in t.messages || m.delivery == t.runs[r].queue[0].id
    requires forall id | id in u.reservations ::
               (id in t.reservations && u.reservations[id] == t.reservations[id]) || u.reservations[id].date == date
    ensures DayPasses(cfg, s, u, date)
  {
    var head := t.runs[r].queue[0];
    assert head in t.runs[r].queue;
    forall id | Asleep(cfg, s, date, id) ensures Sleeps(s, u, date, id) {
      assert Sleeps(s, t, date, id) && NotQueued(t.runs[r], id);
      assert id != head.id;
      forall q | 0 <= q < |u.runs| && Date(u.runs[q].now) == date ensures NotQueued(u.runs[q], id) {
        assert NotQueued(t.runs[q], id);
      }
    }
  }

  lemma FinishedPasses(cfg: Config, s: State, t: State, u: State, date: int, r: nat, onError: Run)
    requires DayPasses(cfg, s, t, date) && Busy(t, r) && Date(t.runs[r].now) == date && OnlyFinishes(t, u, r, onError)
    requires onError.now == t.runs[r].now && forall item | item in onError.queue :: item in t.runs[r].queue
    ensures DayPasses(cfg, s, u, date)
  {
    RunPasses(cfg, s, t, u, date, r);
  }

  lemma FinishPasses(cfg: Config, s: State, t: State, date: int, r: nat, verdict: Verdict, commit: Commit, onError: Run)
    requires DayPasses(cfg, s, t, date) && Busy(t, r) && Date(t.runs[r].now) == date
    requires onError.now == t.runs[r].now && forall item | item in onError.queue :: item in t.runs[r].queue
    ensures DayPasses(cfg, s, FinishRun(t, r, verdict, commit, onError), date)
  {
    FinishMoves(t, r, verdict, commit, onError);
    FinishedPasses(cfg, s, t, FinishRun(t, r, verdict, commit, onError), date, r, onError);
  }

  lemma ReservePasses(cfg: Config, s: State, t: State, date: int, r: nat, commit: Commit)
    requires DayPasses(cfg, s, t, date) && Busy(t, r) && Date(t.runs[r].now) == date
    ensures DayPasses(cfg, s, ReserveStep(cfg, t, r, commit), date)
  {
    ReserveMoves(cfg, t, r, commit);
    RunPasses(cfg, s, t, ReserveStep(cfg, t, r, commit), date, r);
  }

  lemma SendPasses(cfg: Config, s: State, t: State, date: int, r: nat, reply: Reply)
    requires DayPasses(cfg, s, t, date) && Busy(t, r) && Date(t.runs[r].now) == date
    ensures DayPasses(cfg, s, SendStep(t, r, reply), date)
  {
    SendMoves(t, r, reply);
    RunPasses(cfg, s, t, SendStep(t, r, reply), date, r);
  }

  lemma CrashPasses(cfg: Config, s: State, t: State, date: int, r: nat)
    requires DayPasses(cfg, s, t, date) && r < |t.runs|
    ensures DayPasses(cfg, s, SetRun(t, r, Stopped(t.runs[r])), date)
  {
    var u := SetRun(t, r, Stopped(t.runs[r]));
    forall id | Asleep(cfg, s, date, id) ensures Sleeps(s, u, date, id) {
      assert Sleeps(s, t, date, id);
      forall q | 0 <= q < |u.runs| && Date(u.runs[q].now) == date ensures NotQueued(u.runs[q], id) {
        assert q != r ==> NotQueued(t.runs[q], id);
      }
    }
  }

  lemma EnqueuePasses(cfg: Config, s: State, t: State, date: int, id: Id, row: Row)
    requires DayPasses(cfg, s, t, date) && id !in t.rows
    ensures DayPasses(cfg, s, t.(rows := t.rows[id := row]), date)
  {
    var u := t.(rows := t.rows[id := row]);
    forall i | Asleep(cfg, s, date, i) ensures Sleeps(s, u, date, i) {
      assert Sleeps(s, t, date, i);
    }
  }

  lemma CheckPasses(cfg: Config, s: State, t: State, date: int, r: nat, stage: Stage)
    requires DayPasses(cfg, s, t, date) && Busy(t, r) && Date(t.runs[r].now) == date
    ensures DayPasses(cfg, s, ToStage(t, r, stage), date)
  {
    RunPasses(cfg, s, t, ToStage(t, r, stage), date, r);
  }

  lemma StepPasses(cfg: Config, s: State, t: State, date: int, a: Action)
    requires DayPasses(cfg, s, t, date) && ShowsDate(t, a, date)
    ensures DayPasses(cfg, s, Apply(cfg, t, a), date)
  {
    if Enabled(cfg, t, a) {
      match a
      case Enqueue(id, row) => EnqueuePasses(cfg, s, t, date, id, row);
      case Claim(now, ids, commit) => ClaimPasses(cfg, s, t, date, now, ids, commit);
      case Check(r, readOk) => CheckPasses(cfg, s, t, date, r, CheckStage(t, t.runs[r].queue[0].id, readOk));
      case Reserve(r, commit) => ReservePasses(cfg, s, t, date, r, commit);
      case Send(r, reply) => SendPasses(cfg, s, t, date, r, reply);
      case Crash(r) => CrashPasses(cfg, s, t, date, r);
      case _ =>
        FinishPasses(cfg, s, t, date, a.run, VerdictOf(cfg, t.runs[a.run], a), a.commit, OnError(t.runs[a.run], a));
    }
  }

  lemma {:induction false} DayGoesBy(cfg: Config, s: State, actions: seq<Action>, user: User, date: int)
    requires Untouched(s, user, date) && AllShow(cfg, s, actions, date)
    ensures DayPasses(cfg, s, Exec(cfg, s, actions), date)
    decreases |actions|
  {
    if actions == [] {
      DayStarts(cfg, s, user, date);
    } else {
      var n := |actions| - 1;
      DayGoesBy(cfg, s, actions[..n], user, date);
      StepPasses(cfg, s, Exec(cfg, s, actions[..n]), date, actions[n]);
    }
  }

  // ----- without mail waiting over, the cap holds

  lemma NothingCarried(cfg: Config, before: seq<Action>, actions: seq<Action>, user: User, date: int)
    requires var s := Exec(cfg, INIT, before);
             && Untouched(s, user, date) && AllShow(cfg, s, actions, date)
             && forall id | id in s.rows :: !WaitsOver(cfg, s, user, date, id)
    ensures CarriedInto(Exec(cfg, INIT, before + actions), user, date) == {}
  {
    var s := Exec(cfg, INIT, before);
    var t := Exec(cfg, INIT, before + actions);
    ExecAppend(cfg, INIT, before, actions);
    DayGoesBy(cfg, s, actions, user, date);
    ReachableHonest(cfg, before);
    ReachableHonest(cfg, before + actions);
    if CarriedInto(t, user, date) != {} {
      var id := SomeElement(CarriedInto(t, user, date));
      var m :| m in t.messages && m.recipient == user && m.date == date && m.delivery == id;
      CarriedWaits(cfg, s, t, user, date, m);
    }
  }

  /** Carried mail was waiting when the date began. */
  lemma CarriedWaits(cfg: Config, s: State, t: State, user: User, date: int, m: Message)
    requires Honest(cfg, s) && Honest(cfg, t) && Untouched(s, user, date) && DayPasses(cfg, s, t, date)
    requires m in t.messages && m.recipient == user && m.date == date && m.delivery in CarriedInto(t, user, date)
    ensures m.delivery in s.rows && WaitsOver(cfg, s, user, date, m.delivery)
  {
    var id := m.delivery;
    assert id in s.reservations && id in s.rows;
    assert Logged(m, t.rows, t.reservations, t.providerIds);
    assert m in s.messages ==> id in SentOn(s, user, date);
    assert s.messages == t.messages[..|s.messages|];
    OnlyMessage(t.messages, m);
    assert Asleep(cfg, s, date, id) ==> Sleeps(s, t, date, id);
  }

  lemma OnlyMessage(messages: seq<Message>, m: Message)
    requires SentOnce(messages) && m in messages
    ensures forall k | k in messages && k.delivery == m.delivery :: k == m
  {
    var j :| 0 <= j < |messages| && messages[j] == m;
    forall k | k in messages && k.delivery == m.delivery ensures k == m {
      var i :| 0 <= i < |messages| && messages[i] == k;
      assert i == j;
    }
  }

  // ----- with mail waiting over, the cap is broken

  /** Steps of the date, one after the other. */
  lemma ShowSnoc(cfg: Config, s: State, actions: seq<Action>, a: Action, date: int)
    requires AllShow(cfg, s, actions, date) && ShowsDate(Exec(cfg, s, actions), a, date)
    ensures AllShow(cfg, s, actions + [a], date)
    ensures Exec(cfg, s, actions + [a]) == Apply(cfg, Exec(cfg, s, actions), a)
  {
    assert (actions + [a])[..|actions|] == actions;
    ExecSnoc(cfg, s, actions, a);
  }

  /** What sending one more delivery under the quota's eye leaves behind. */
  ghost predicate OneMoreSent(s: State, t: State, user: User, date: int, id: Id) {
    && id in t.rows && t.rows[id].mail.recipient == user && !IsSecurity(t.rows[id].mail)
    && t.messages == s.messages + [Message(id, user, date)]
    && (forall m | m in s.messages :: m.delivery != id)
    && (forall i | i in s.rows :: i in t.rows && t.rows[i].mail == s.rows[i].mail)
  }

  /** Of any other delivery the new state tells the same. */
  lemma SentAsBefore(s: State, t: State, user: User, date: int, id: Id, x: Id)
    requires OneMoreSent(s, t, user, date, id) && x != id && (forall m | m in s.messages :: m.delivery in s.rows)
    ensures x in SentOn(t, user, date) <==> x in SentOn(s, user, date)
  {
    var added := Message(id, user, date);
    if x in SentOn(s, user, date) {
      var m :| m in s.messages && m.recipient == user && m.date == date && m.delivery == x;
      assert m in t.messages;
    }
    if x in SentOn(t, user, date) {
      var m :| m in t.messages && m.recipient == user && m.date == date && m.delivery == x;
      assert m != added && m in s.messages;
    }
  }

  lemma SentNow(s: State, t: State, user: User, date: int, id: Id)
    requires OneMoreSent(s, t, user, date, id)
    ensures id in SentOn(t, user, date) && id !in SentOn(s, user, date)
  {
    assert t.messages[|s.messages|] == Message(id, user, date);
  }

  lemma CountsOneMore(cfg: Config, s: State, t: State, user: User, date: int, id: Id)
    requires Honest(cfg, s) && OneMoreSent(s, t, user, date, id)
    ensures |SentOn(t, user, date)| == |SentOn(s, user, date)| + 1
  {
    forall m | m in s.messages ensures m.delivery in s.rows {
      assert Logged(m, s.rows, s.reservations, s.providerIds);
    }
    SentNow(s, t, user, date, id);
    forall x | x != id ensures x in SentOn(t, user, date) <==> x in SentOn(s, user, date) {
      SentAsBefore(s, t, user, date, id, x);
    }
    OneMoreElement(SentOn(s, user, date), SentOn(t, user, date), id);
  }

  lemma OneMoreElement(before: set<Id>, after: set<Id>, id: Id)
    requires id !in before && id in after && forall x | x != id :: x in after <==> x in before
    ensures |after| == |before| + 1
  {
    assert after == before + {id};
  }

  lemma ShowFirst(cfg: Config, s: State, a: Action, date: int)
    requires ShowsDate(s, a, date)
    ensures AllShow(cfg, s, [a], date) && Exec(cfg, s, [a]) == Apply(cfg, s, a)
  {
    assert [a][..0] == [];
    assert Exec(cfg, s, []) == s;
  }

  /** A delivery that can be claimed is claimed and checked. */
  lemma ClaimAndCheck(cfg: Config, s: State, id: Id, now: Time) returns (actions: seq<Action>, t: State)
    requires id in s.rows && Claimable(s.rows[id], now, cfg.lease) && !IsSecurity(s.rows[id].mail)
    ensures AllShow(cfg, s, actions, Date(now)) && t == Exec(cfg, s, actions)
    ensures t.rows == s.rows[id := ClaimedRow(s.rows[id], now)]
    ensures t.reservations == s.reservations && t.providerIds == s.providerIds && t.messages == s.messages
    ensures t.runs == s.runs + [Run(now, [Item(id, s.rows[id].attempts + 1)],
                                    if id in s.reservations then Sending else Reserving, 0, false)]
  {
    var r := |s.runs|;
    var claim, check := Claim(now, [id], Acked), Check(r, true);
    ClaimSingle(cfg, s, now, id);
    var s1 := Apply(cfg, s, claim);
    CheckStep(cfg, s1, r);
    ShowFirst(cfg, s, claim, Date(now));
    ShowSnoc(cfg, s, [claim], check, Date(now));
    actions := [claim] + [check];
    t := Apply(cfg, s1, check);
  }

  /** The last run of s sends its delivery. */
  lemma SendLast(cfg: Config, s: State, t: State, done: seq<Action>, user: User, id: Id, now: Time)
    returns (actions: seq<Action>)
    requires AllShow(cfg, s, done, Date(now)) && t == Exec(cfg, s, done) && |t.runs| > 0
    requires t.runs[|t.runs| - 1].now == now && t.runs[|t.runs| - 1].stage.Sending?
    requires Busy(t, |t.runs| - 1) && t.runs[|t.runs| - 1].queue[0].id == id
    requires t.rows[id].mail.recipient == user && Renderable(t.rows[id].mail) && Key(id) !in t.providerIds
    ensures AllShow(cfg, s, actions, Date(now))
    ensures var u := Exec(cfg, s, actions);
            && u.rows == t.rows && u.reservations == t.reservations && u.history == t.history
            && u.runs == t.runs[|t.runs| - 1 := t.runs[|t.runs| - 1].(stage := Completing(""))]
            && u.messages == t.messages + [Message(id, user, Date(now))]
  {
    var r := |t.runs| - 1;
    SendFirst(cfg, t, r, "");
    ShowSnoc(cfg, s, done, Send(r, Accepted("")), Date(now));
    actions := done + [Send(r, Accepted(""))];
  }

  /** A reserved delivery is claimed, found reserved, and sent. */
  lemma SendReserved(cfg: Config, s: State, user: User, id: Id, now: Time) returns (actions: seq<Action>)
    requires Honest(cfg, s) && WaitsOver(cfg, s, user, Date(now), id) && Claimable(s.rows[id], now, cfg.lease)
    ensures AllShow(cfg, s, actions, Date(now))
    ensures var t := Exec(cfg, s, actions); OneMoreSent(s, t, user, Date(now), id) && t.reservations == s.reservations
  {
    KeyIsNew(cfg, s, id);
    var done, t := ClaimAndCheck(cfg, s, id, now);
    actions := SendLast(cfg, s, t, done, user, id, now);
  }

  /** What has not been sent has no answer at the provider. */
  lemma KeyIsNew(cfg: Config, s: State, id: Id)
    requires Honest(cfg, s) && forall m | m in s.messages :: m.delivery != id
    ensures Key(id) !in s.providerIds
  {
    if Key(id) in s.providerIds {
      var m :| m in s.messages && Key(m.delivery) == Key(id);
      KeyInjective(m.delivery, id);
    }
  }

  /** A new delivery is enqueued, claimed and checked. */
  lemma CheckNew(cfg: Config, s: State, mail: Mail, now: Time, id: Id) returns (actions: seq<Action>, t: State)
    requires id !in s.rows && id !in s.reservations && !IsSecurity(mail)
    ensures AllShow(cfg, s, actions, Date(now)) && t == Exec(cfg, s, actions)
    ensures t.rows == s.rows[id := ClaimedRow(Waiting(mail), now)]
    ensures t.reservations == s.reservations && t.providerIds == s.providerIds && t.messages == s.messages
    ensures t.runs == s.runs + [Run(now, [Item(id, 1)], Reserving, 0, false)]
  {
    var enqueue := Enqueue(id, Waiting(mail));
    var s1 := Apply(cfg, s, enqueue);
    ShowFirst(cfg, s, enqueue, Date(now));
    var done;
    done, t := ClaimAndCheck(cfg, s1, id, now);
    ShowAppend(cfg, s, [enqueue], done, Date(now));
    ExecAppend(cfg, s, [enqueue], done);
    actions := [enqueue] + done;
  }

  /** A new delivery gets the next slot. */
  lemma ReserveNew(cfg: Config, s: State, mail: Mail, now: Time, id: Id) returns (actions: seq<Action>, t: State)
    requires id !in s.rows && id !in s.reservations && !IsSecurity(mail)
    requires |Holders(s.reservations, mail.recipient, Date(now))| < cfg.quota
    ensures AllShow(cfg, s, actions, Date(now)) && t == Exec(cfg, s, actions)
    ensures t.rows == s.rows[id := ClaimedRow(Waiting(mail), now)]
    ensures var user := mail.recipient;
            t.reservations == s.reservations[id := Reservation(user, Date(now), NextSlot(s.reservations, user, Date(now)))]
    ensures t.providerIds == s.providerIds && t.messages == s.messages
    ensures t.runs == s.runs + [Run(now, [Item(id, 1)], Sending, 0, false)]
  {
    var done, u := CheckNew(cfg, s, mail, now, id);
    var reserve := Reserve(|s.runs|, Acked);
    ReserveNext(cfg, u, |s.runs|);
    ShowSnoc(cfg, s, done, reserve, Date(now));
    actions := done + [reserve];
    t := Apply(cfg, u, reserve);
  }

  /** A new delivery takes the next slot of the date and is sent. */
  lemma SendNew(cfg: Config, s: State, user: User, now: Time) returns (actions: seq<Action>)
    requires Honest(cfg, s) && |Holders(s.reservations, user, Date(now))| < cfg.quota
    ensures AllShow(cfg, s, actions, Date(now))
    ensures var t := Exec(cfg, s, actions);
            && |SentOn(t, user, Date(now))| == |SentOn(s, user, Date(now))| + 1
            && |Holders(t.reservations, user, Date(now))| == |Holders(s.reservations, user, Date(now))| + 1
  {
    var date := Date(now);
    var id := FreshId(s.rows.Keys);
    forall m | m in s.messages ensures m.delivery != id {
      assert Logged(m, s.rows, s.reservations, s.providerIds);
    }
    assert id !in s.reservations;
    KeyIsNew(cfg, s, id);
    MailIsOrdinary(user);
    var done, t := ReserveNew(cfg, s, OrdinaryMail(user), now, id);
    actions := SendLast(cfg, s, t, done, user, id, now);
    InsertedSlots(s.reservations, id, t.reservations[id]);
    assert id !in Holders(s.reservations, user, date);
    CountsOneMore(cfg, s, Exec(cfg, s, actions), user, date, id);
  }

  lemma {:induction false} ShowAppend(cfg: Config, s: State, first: seq<Action>, second: seq<Action>, date: int)
    requires AllShow(cfg, s, first, date) && AllShow(cfg, Exec(cfg, s, first), second, date)
    ensures AllShow(cfg, s, first + second, date)
    decreases |second|
  {
    if second == [] {
      assert first + second == first;
    } else {
      var n := |second| - 1;
      var rest, last := second[..n], second[n];
      ShowAppend(cfg, s, first, rest, date);
      ExecAppend(cfg, s, first, rest);
      assert ShowsDate(Exec(cfg, Exec(cfg, s, first), rest), last, date);
      ShowSnoc(cfg, s, first + rest, last, date);
      assert first + second == first + rest + [last];
    }
  }

  lemma {:induction false} SendNewOnes(cfg: Config, s: State, user: User, now: Time, k: nat) returns (actions: seq<Action>)
    requires Honest(cfg, s) && |Holders(s.reservations, user, Date(now))| + k <= cfg.quota
    ensures AllShow(cfg, s, actions, Date(now))
    ensures |SentOn(Exec(cfg, s, actions), user, Date(now))| == |SentOn(s, user, Date(now))| + k
    decreases k
  {
    if k == 0 {
      actions := [];
    } else {
      var first := SendNew(cfg, s, user, now);
      ExecHonest(cfg, s, first);
      var rest := SendNewOnes(cfg, Exec(cfg, s, first), user, now, k - 1);
      ShowAppend(cfg, s, first, rest, Date(now));
      ExecAppend(cfg, s, first, rest);
      actions := first + rest;
    }
  }

  /** Mail that waits over goes out beside a full day's quota. */
  lemma QuotaAndOneMore(cfg: Config, s: State, user: User, date: int, id: Id) returns (actions: seq<Action>)
    requires Honest(cfg, s) && Untouched(s, user, date) && cfg.quota >= 1 && WaitsOver(cfg, s, user, date, id)
    ensures AllShow(cfg, s, actions, date) && |SentOn(Exec(cfg, s, actions), user, date)| == cfg.quota + 1
  {
    var now := LastInstant(date);
    assert Date(now) == date;
    var carry := SendReserved(cfg, s, user, id, now);
    var t := Exec(cfg, s, carry);
    CountsOneMore(cfg, s, t, user, date, id);
    ExecHonest(cfg, s, carry);
    var rest := SendNewOnes(cfg, t, user, now, cfg.quota);
    ShowAppend(cfg, s, carry, rest, date);
    ExecAppend(cfg, s, carry, rest);
    actions := carry + rest;
  }

  // ----- the condition

  /** The quota caps a user's day, however it goes, exactly when it lets nothing through at all or nothing that was
      reserved for another date waits over into it. */
  lemma CapHoldsIff(cfg: Config, before: seq<Action>, user: User, date: int)
    requires Untouched(Exec(cfg, INIT, before), user, date)
    ensures var s := Exec(cfg, INIT, before);
            CapHolds(cfg, s, user, date) <==>
              cfg.quota <= 0 || forall id | id in s.rows :: !WaitsOver(cfg, s, user, date, id)
  {
    var s := Exec(cfg, INIT, before);
    ReachableHonest(cfg, before);
    if cfg.quota >= 1 && exists id | id in s.rows :: WaitsOver(cfg, s, user, date, id) {
      var id :| id in s.rows && WaitsOver(cfg, s, user, date, id);
      var actions := QuotaAndOneMore(cfg, s, user, date, id);
      assert AllShow(cfg, s, actions, date);
    } else {
      forall actions | AllShow(cfg, s, actions, date)
        ensures |SentOn(Exec(cfg, s, actions), user, date)| <= Max(cfg.quota, 0)
      {
        ExecAppend(cfg, INIT, before, actions);
        if cfg.quota <= 0 {
          NothingWithoutQuota(cfg, before + actions, user, date);
        } else {
          NothingCarried(cfg, before, actions, user, date);
          SentOnADay(cfg, before + actions, user, date);
        }
      }
    }
  }

  lemma NothingWithoutQuota(cfg: Config, actions: seq<Action>, user: User, date: int)
    requires cfg.quota <= 0
    ensures SentOn(Exec(cfg, INIT, actions), user, date) == {}
  {
    SentWithinQuota(cfg, actions, user);
    var s := Exec(cfg, INIT, actions);
    assert |DatesOf(s.reservations, user)| * 0 == 0;
    forall id | id in SentOn(s, user, date) ensures id in SentTo(s, user) {
    }
  }
}
