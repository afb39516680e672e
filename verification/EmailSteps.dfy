/** Single steps with a known outcome, to build runs from. */
module EmailSteps {
  import opened Prelude
  import opened EmailTables
  import opened EmailMachine
  import opened EmailLog

  lemma ExecSnoc(cfg: Config, s: State, actions: seq<Action>, a: Action)
    ensures Exec(cfg, s, actions + [a]) == Apply(cfg, Exec(cfg, s, actions), a)
  {
    assert (actions + [a])[..|actions|] == actions;
  }

  lemma {:induction false} ExecAppend(cfg: Config, s: State, first: seq<Action>, second: seq<Action>)
    ensures Exec(cfg, s, first + second) == Exec(cfg, Exec(cfg, s, first), second)
    decreases |second|
  {
    if second == [] {
      assert first + second == first;
    } else {
      var n := |second| - 1;
      ExecAppend(cfg, s, first, second[..n]);
      ExecSnoc(cfg, s, first + second[..n], second[n]);
      assert first + second == first + second[..n] + [second[n]];
    }
  }

  lemma {:induction false} ExecHonest(cfg: Config, s: State, actions: seq<Action>)
    requires Honest(cfg, s)
    ensures Honest(cfg, Exec(cfg, s, actions))
    decreases |actions|
  {
    if actions != [] {
      ExecHonest(cfg, s, actions[..|actions| - 1]);
      StepHonest(cfg, Exec(cfg, s, actions[..|actions| - 1]), actions[|actions| - 1]);
    }
  }

  /** A claim of one delivery starts a run that holds it under the next token. */
  lemma ClaimSingle(cfg: Config, s: State, now: Time, id: Id)
    requires id in s.rows && Claimable(s.rows[id], now, cfg.lease)
    ensures Apply(cfg, s, Claim(now, [id], Acked)) ==
            ClaimOne(s, |s.runs|, now, id).(runs := s.runs + [Run(now, [Item(id, s.rows[id].attempts + 1)], Begin, 0, false)])
  {
    var c := ClaimOne(s, |s.runs|, now, id);
    assert ClaimAll(s, |s.runs|, now, [id]) == ClaimAll(c, |s.runs|, now, []) == c;
    assert Items(c.rows, [id]) == [Item(id, s.rows[id].attempts + 1)];
  }

  /** A check that can read, of mail the quota applies to. */
  lemma CheckStep(cfg: Config, s: State, r: nat)
    requires Busy(s, r) && s.runs[r].stage.Begin? && !IsSecurity(s.rows[s.runs[r].queue[0].id].mail)
    ensures Apply(cfg, s, Check(r, true)) ==
            ToStage(s, r, if s.runs[r].queue[0].id in s.reservations then Sending else Reserving)
  {
  }

  /** A reservation that finds room. */
  lemma ReserveNext(cfg: Config, s: State, r: nat)
    requires Busy(s, r) && s.runs[r].stage.Reserving? && s.runs[r].queue[0].id !in s.reservations
    requires NextSlot(s.reservations, s.rows[s.runs[r].queue[0].id].mail.recipient, Date(s.runs[r].now)) <= cfg.quota
    ensures var id := s.runs[r].queue[0].id; var user, date := s.rows[id].mail.recipient, Date(s.runs[r].now);
            Apply(cfg, s, Reserve(r, Acked)) ==
            ToStage(s.(reservations := s.reservations[id := Reservation(user, date, NextSlot(s.reservations, user, date))]), r,
                    Sending)
  {
    assert Apply(cfg, s, Reserve(r, Acked)) == ReserveStep(cfg, s, r, Acked);
  }

  /** A first send that the provider accepts. */
  lemma SendFirst(cfg: Config, s: State, r: nat, providerId: string)
    requires Busy(s, r) && s.runs[r].stage.Sending? && Renderable(s.rows[s.runs[r].queue[0].id].mail)
    requires Key(s.runs[r].queue[0].id) !in s.providerIds
    ensures var id := s.runs[r].queue[0].id;
            Apply(cfg, s, Send(r, Accepted(providerId))) ==
            ToStage(s, r, Completing(providerId)).(
            providerIds := s.providerIds[Key(id) := providerId],
            messages := s.messages + [Message(id, s.rows[id].mail.recipient, Date(s.runs[r].now))])
  {
    assert Enabled(cfg, s, Send(r, Accepted(providerId)));
  }

  /** Mail that the quota applies to and that can be rendered. */
  function OrdinaryMail(user: User): Mail {
    Mail(user, "membership.approved", false, false)
  }

  function Waiting(mail: Mail): (row: Row)
    ensures Fresh(row) && row.mail == mail
  {
    Row(mail, 0, Pending, 0, None, None, None, None, None)
  }

  lemma MailIsOrdinary(user: User)
    ensures !IsSecurity(OrdinaryMail(user)) && Renderable(OrdinaryMail(user))
  {
    var eventType := OrdinaryMail(user).eventType;
    assert eventType[0] == 'm' && eventType[1] == 'e';
    assert HasPrefix(eventType, "membership.");
  }
}
